/** The request/response shape of an account (`CuentaBancariaDTO`) and the
    field constraints checked on every create and update body. A failing check
    reports, per field, the message declared on the constraint. */
module Dto {
  import opened Wrappers
  import opened Text

  datatype AccountDto = AccountDto(
    id: Option<int>,
    numeroCuenta: Option<string>,
    nombreTitular: Option<string>,
    saldo: Option<int>)

  const NumeroCuentaField := "numeroCuenta"
  const NombreTitularField := "nombreTitular"
  const SaldoField := "saldo"

  const NumeroCuentaRequired := "El numero de cuenta es obligatorio."
  const NombreTitularRequired := "El nombre del titular es obligatorio."
  const SaldoRequired := "El saldo es obligatorio."
  const SaldoNegative := "El saldo no puede ser negativo."

  /** `@NotNull` on the balance. */
  predicate SaldoPresent(d: AccountDto) {
    d.saldo.Some?
  }

  /** `@Min(0)` on the balance; like every bean-validation bound it accepts a
      missing value, which is left to `@NotNull`. */
  predicate SaldoAtLeastZero(d: AccountDto) {
    d.saldo.None? || d.saldo.value >= 0
  }

  /** The body passes `@Valid`: every field constraint holds. */
  predicate Valid(d: AccountDto) {
    && NotBlank(d.numeroCuenta)
    && NotBlank(d.nombreTitular)
    && SaldoPresent(d)
    && SaldoAtLeastZero(d)
  }

  /** The field-error map built from the failed constraints: field name to the
      message of the constraint it violated. At most one balance constraint can
      fail at a time, since `@Min` passes on a missing value. */
  function FieldErrors(d: AccountDto): (errs: map<string, string>)
    ensures NumeroCuentaField in errs <==> !NotBlank(d.numeroCuenta)
    ensures NombreTitularField in errs <==> !NotBlank(d.nombreTitular)
    ensures SaldoField in errs <==> !(SaldoPresent(d) && SaldoAtLeastZero(d))
    ensures errs.Keys <= {NumeroCuentaField, NombreTitularField, SaldoField}
    ensures NumeroCuentaField in errs ==> errs[NumeroCuentaField] == NumeroCuentaRequired
    ensures NombreTitularField in errs ==> errs[NombreTitularField] == NombreTitularRequired
    ensures SaldoField in errs ==>
              errs[SaldoField] == if SaldoPresent(d) then SaldoNegative else SaldoRequired
  {
    var numero := if NotBlank(d.numeroCuenta) then map[]
                  else map[NumeroCuentaField := NumeroCuentaRequired];
    var titular := if NotBlank(d.nombreTitular) then numero
                   else numero[NombreTitularField := NombreTitularRequired];
    if !SaldoPresent(d) then titular[SaldoField := SaldoRequired]
    else if !SaldoAtLeastZero(d) then titular[SaldoField := SaldoNegative]
    else titular
  }

  /** A body is valid exactly when validation reports no field error. */
  lemma ValidIffNoFieldErrors(d: AccountDto)
    ensures Valid(d) <==> FieldErrors(d) == map[]
  {
  }

  /** `id` carries no constraint: whatever it holds, or its absence, never
      changes the verdict. */
  lemma IdUnconstrained(d: AccountDto, id: Option<int>)
    ensures Valid(d.(id := id)) <==> Valid(d)
    ensures FieldErrors(d.(id := id)) == FieldErrors(d)
  {
  }

  /** A zero balance is accepted and a negative one is rejected with the
      `@Min` message, all else being valid. */
  lemma SaldoBoundary(d: AccountDto, n: int)
    requires NotBlank(d.numeroCuenta) && NotBlank(d.nombreTitular)
    ensures Valid(d.(saldo := Some(0)))
    ensures n < 0 ==> FieldErrors(d.(saldo := Some(n))) == map[SaldoField := SaldoNegative]
  {
  }
}
