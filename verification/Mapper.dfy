/** Conversion between the persisted record and its transfer shape
    (`CuentaBancariaMapper`): a field-for-field copy with no validation. */
module Mapper {
  import opened Entity
  import opened Dto

  function ToDto(e: Account): (d: AccountDto)
    ensures Dto.Valid(d) <==> Entity.Valid(e)
  {
    AccountDto(e.id, e.numeroCuenta, e.nombreTitular, e.saldo)
  }

  /** No validation happens here: an invalid body becomes an equally invalid
      entity, and nothing is lost on the way back. */
  function ToEntity(d: AccountDto): (e: Account)
    ensures ToDto(e) == d
    ensures Entity.Valid(e) <==> Dto.Valid(d)
  {
    Account(d.id, d.numeroCuenta, d.nombreTitular, d.saldo)
  }

  /** The entity round trip: converting a record to its transfer shape and back
      yields the same record. */
  lemma EntityRoundTrip(e: Account)
    ensures ToEntity(ToDto(e)) == e
  {
  }

  /** The field copy, stated per field: each of the four fields of the entity
      equals the field of the same name in the body it came from. */
  lemma ToEntityCopiesFields(d: AccountDto)
    ensures var e := ToEntity(d);
            e.id == d.id && e.numeroCuenta == d.numeroCuenta
            && e.nombreTitular == d.nombreTitular && e.saldo == d.saldo
  {
  }

  lemma ToDtoCopiesFields(e: Account)
    ensures var d := ToDto(e);
            d.id == e.id && d.numeroCuenta == e.numeroCuenta
            && d.nombreTitular == e.nombreTitular && d.saldo == e.saldo
  {
  }
}
