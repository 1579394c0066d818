/** The persisted bank-account record (`CuentaBancaria`) and the bean-validation
    constraints declared on it, which the persistence layer checks whenever a
    record is inserted or updated. */
module Entity {
  import opened Wrappers
  import opened Text

  /** One account row. Every field is nullable in the source, hence `Option`.
      `id` is the primary key the store generates; `saldo` is the balance,
      an exact decimal in the source and an integer here. */
  datatype Account = Account(
    id: Option<int>,
    numeroCuenta: Option<string>,
    nombreTitular: Option<string>,
    saldo: Option<int>)

  /** The entity's own constraints: `@NotBlank` account number and holder,
      `@NotNull @Min(0)` balance. `id` carries none. */
  predicate Valid(a: Account) {
    && NotBlank(a.numeroCuenta)
    && NotBlank(a.nombreTitular)
    && a.saldo.Some? && a.saldo.value >= 0
  }
}
