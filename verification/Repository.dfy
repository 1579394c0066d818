/** The account repository as a value: a finite map from account number to the
    stored record, plus the generator of primary keys. Lookup by number is
    the derived `findByNumeroCuenta` query; the map's keys are the unique
    `numeroCuenta` column. */
module Repository {
  import opened Wrappers
  import opened Entity

  /** `accounts` holds the rows; `nextId` is the next primary key the store
      hands out, so the store (not the service) chooses every `id`. */
  datatype Store = Store(accounts: map<string, Account>, nextId: int)

  /** The invariants of the account table: every row is filed under its own
      account number, so no two rows share one; every row meets the entity's
      constraints; every row has a generated key, and no two rows share a key. */
  ghost predicate Inv(s: Store) {
    && FiledByNumber(s)
    && (forall n | n in s.accounts ::
          && Entity.Valid(s.accounts[n])
          && s.accounts[n].id.Some?
          && s.accounts[n].id.value < s.nextId)
    && (forall n, m | n in s.accounts && m in s.accounts && n != m ::
          s.accounts[n].id != s.accounts[m].id)
  }

  /** Every row sits under its own account number. */
  ghost predicate FiledByNumber(s: Store) {
    forall n | n in s.accounts :: s.accounts[n].numeroCuenta == Some(n)
  }

  /** The empty table, as at start-up. */
  function Empty(): (s: Store)
    ensures Inv(s) && s.accounts == map[]
  {
    Store(map[], 0)
  }

  /** `findByNumeroCuenta`. A null number finds nothing: no stored row has one. */
  function FindByNumero(s: Store, numero: Option<string>): (r: Option<Account>)
    ensures r.Some? <==> numero.Some? && numero.value in s.accounts
    ensures r.Some? ==> r.value == s.accounts[numero.value]
    ensures Inv(s) && r.Some? ==> r.value.numeroCuenta == numero && Entity.Valid(r.value)
  {
    if numero.Some? && numero.value in s.accounts then Some(s.accounts[numero.value]) else None
  }

  /** Filing a new valid row under its own, unused number with the next key
      keeps the table's invariants. */
  lemma InsertKeepsInv(s: Store, n: string, a: Account)
    requires n !in s.accounts && a.numeroCuenta == Some(n) && Entity.Valid(a)
    requires a.id == Some(s.nextId)
    ensures Inv(s) ==> Inv(Store(s.accounts[n := a], s.nextId + 1))
  {
  }

  /** Replacing a row by a valid one with the same number and key keeps the
      table's invariants. */
  lemma ReplaceKeepsInv(s: Store, n: string, a: Account)
    requires n in s.accounts && Entity.Valid(a)
    requires a.numeroCuenta == s.accounts[n].numeroCuenta && a.id == s.accounts[n].id
    ensures Inv(s) ==> Inv(s.(accounts := s.accounts[n := a]))
  {
  }

  /** Removing a row keeps the table's invariants. */
  lemma RemoveKeepsInv(s: Store, n: string)
    ensures Inv(s) ==> Inv(s.(accounts := s.accounts - {n}))
  {
  }
}
