/** The account service (`CuentaBancariaService`): create, look up, list,
    update and delete accounts by number. Each operation takes the current
    store and returns the new store with its result, or an error; a failed
    operation returns no store, so the table is left as it was. */
module Service {
  import opened Wrappers
  import opened Entity
  import opened Dto
  import opened Mapper
  import opened Repository
  import opened Errors
  import opened Text

  /** The store after a successful operation, with the operation's result. */
  datatype Committed<T> = Committed(store: Store, value: T)

  /** The persistence layer's check on insert and update: a row that breaks the
      entity's constraints is refused, which surfaces as a generic failure. */
  const ConstraintViolation := "constraint violation on persist"

  /** The keys the table already uses. */
  ghost function UsedIds(s: Store): set<int> {
    set n | n in s.accounts && s.accounts[n].id.Some? :: s.accounts[n].id.value
  }

  /** `crearCuenta`: refuse a number already on file; otherwise convert the
      body, let the store assign a fresh key, and return the saved record. */
  function CrearCuenta(s: Store, d: AccountDto): (r: Result<Committed<AccountDto>, Error>)
    ensures r.Failure? ==> r.error.CuentaDuplicada? || r.error.Inesperado?
    ensures (r.Failure? && r.error.CuentaDuplicada?)
            <==> d.numeroCuenta.Some? && d.numeroCuenta.value in s.accounts
    ensures r.Failure? && r.error.CuentaDuplicada? ==>
              r.error.message == DuplicateMessage(d.numeroCuenta.value)
    ensures r.Success? <==>
              d.numeroCuenta.Some? && d.numeroCuenta.value !in s.accounts && Dto.Valid(d)
    ensures r.Success? ==>
              var n := d.numeroCuenta.value;
              var t := r.value.store.accounts;
              && t.Keys == s.accounts.Keys + {n}
              && |t| == |s.accounts| + 1
              && (forall k | k in s.accounts :: t[k] == s.accounts[k])
              && r.value.value == ToDto(t[n])
              && r.value.value == d.(id := t[n].id)
              && t[n].id.Some?
              && (Inv(s) ==> t[n].id.value !in UsedIds(s))
    ensures Inv(s) && r.Success? ==> Inv(r.value.store)
  {
    if FindByNumero(s, d.numeroCuenta).Some? then
      Failure(CuentaDuplicada(DuplicateMessage(d.numeroCuenta.value)))
    else
      var e := ToEntity(d);
      if !Entity.Valid(e) then
        Failure(Inesperado(ConstraintViolation))
      else
        var n := e.numeroCuenta.value;
        var saved := e.(id := Some(s.nextId));
        InsertKeepsInv(s, n, saved);
        Success(Committed(Store(s.accounts[n := saved], s.nextId + 1), ToDto(saved)))
  }

  /** `getCuentaByNumero`: the record filed under `numero`, as a DTO. */
  function GetCuentaByNumero(s: Store, numero: string): (r: Option<AccountDto>)
    ensures r.Some? <==> numero in s.accounts
    ensures r.Some? ==> ToEntity(r.value) == s.accounts[numero]
    ensures Inv(s) && r.Some? ==> r.value.numeroCuenta == Some(numero) && Dto.Valid(r.value)
  {
    match FindByNumero(s, Some(numero))
    case None => None
    case Some(e) => Some(ToDto(e))
  }

  /** `r` lists the table: one DTO per stored record, each record exactly once. */
  ghost predicate Lists(r: seq<AccountDto>, s: Store) {
    && |r| == |s.accounts|
    && ListsAmong(r, s, s.accounts.Keys)
    && (forall n | n in s.accounts :: Listed(r, n))
  }

  /** Every entry of `r` is the converted record of a distinct number in `keys`. */
  ghost predicate ListsAmong(r: seq<AccountDto>, s: Store, keys: set<string>) {
    && (forall i | 0 <= i < |r| ::
          r[i].numeroCuenta.Some? && r[i].numeroCuenta.value in keys
          && r[i].numeroCuenta.value in s.accounts
          && r[i] == ToDto(s.accounts[r[i].numeroCuenta.value]))
    && (forall i, j | 0 <= i < j < |r| :: r[i].numeroCuenta != r[j].numeroCuenta)
  }

  /** The record filed under `n` appears in `r`. */
  ghost predicate Listed(r: seq<AccountDto>, n: string) {
    exists i | 0 <= i < |r| :: r[i].numeroCuenta == Some(n)
  }

  /** `getAllCuentas`: every record, converted. The table is read without an
      ordering, so the order of the list is left open. */
  method GetAllCuentas(s: Store) returns (r: seq<AccountDto>)
    requires FiledByNumber(s)
    ensures Lists(r, s)
  {
    var pending := s.accounts.Keys;
    r := [];
    while pending != {}
      invariant pending <= s.accounts.Keys
      invariant |r| + |pending| == |s.accounts|
      invariant ListsAmong(r, s, s.accounts.Keys - pending)
      invariant forall n | n in s.accounts && n !in pending :: Listed(r, n)
      decreases pending
    {
      var n :| n in pending;
      var listed := r;
      r := r + [ToDto(s.accounts[n])];
      ListStep(listed, s, s.accounts.Keys - pending, n);
      pending := pending - {n};
    }
  }

  /** Appending the record of a number not yet listed extends a listing. */
  lemma ListStep(r: seq<AccountDto>, s: Store, done: set<string>, n: string)
    requires FiledByNumber(s)
    requires n in s.accounts && n !in done
    requires ListsAmong(r, s, done)
    ensures ListsAmong(r + [ToDto(s.accounts[n])], s, done + {n})
    ensures forall m | Listed(r, m) :: Listed(r + [ToDto(s.accounts[n])], m)
    ensures Listed(r + [ToDto(s.accounts[n])], n)
  {
    var r' := r + [ToDto(s.accounts[n])];
    assert r'[|r|].numeroCuenta == Some(n);
    forall m | Listed(r, m) ensures Listed(r', m) {
      var i :| 0 <= i < |r| && r[i].numeroCuenta == Some(m);
      assert r'[i] == r[i];
    }
  }

  /** `updateCuenta`: only the holder and the balance are taken from the body;
      the record keeps its number and its key whatever the body carries. */
  function UpdateCuenta(s: Store, numero: string, d: AccountDto): (r: Result<Committed<AccountDto>, Error>)
    ensures r.Failure? ==> r.error.CuentaNoEncontrada? || r.error.Inesperado?
    ensures numero !in s.accounts <==> r == Failure(CuentaNoEncontrada(NotFoundMessage(numero)))
    ensures Inv(s) ==>
              (r.Success? <==> numero in s.accounts && NotBlank(d.nombreTitular)
                               && SaldoPresent(d) && SaldoAtLeastZero(d))
    ensures r.Success? ==>
              var before := s.accounts[numero];
              var t := r.value.store.accounts;
              && t.Keys == s.accounts.Keys
              && t[numero].id == before.id
              && t[numero].numeroCuenta == before.numeroCuenta
              && t[numero].nombreTitular == d.nombreTitular
              && t[numero].saldo == d.saldo
              && (forall k | k in s.accounts && k != numero :: t[k] == s.accounts[k])
              && r.value.store.nextId == s.nextId
              && ToEntity(r.value.value) == t[numero]
    ensures Inv(s) && r.Success? ==> Inv(r.value.store)
  {
    match FindByNumero(s, Some(numero))
    case None => Failure(CuentaNoEncontrada(NotFoundMessage(numero)))
    case Some(existing) =>
      var changed := existing.(nombreTitular := d.nombreTitular, saldo := d.saldo);
      if !Entity.Valid(changed) then
        Failure(Inesperado(ConstraintViolation))
      else
        ReplaceKeepsInv(s, numero, changed);
        Success(Committed(s.(accounts := s.accounts[numero := changed]), ToDto(changed)))
  }

  /** `deleteCuenta`: remove the record filed under `numero`. */
  function DeleteCuenta(s: Store, numero: string): (r: Result<Store, Error>)
    ensures r.Failure? <==> numero !in s.accounts
    ensures r.Failure? ==> r.error == CuentaNoEncontrada(NotFoundMessage(numero))
    ensures r.Success? ==>
              && r.value.accounts.Keys == s.accounts.Keys - {numero}
              && |r.value.accounts| == |s.accounts| - 1
              && (forall k | k in r.value.accounts :: r.value.accounts[k] == s.accounts[k])
              && r.value.nextId == s.nextId
    ensures Inv(s) && r.Success? ==> Inv(r.value)
  {
    match FindByNumero(s, Some(numero))
    case None => Failure(CuentaNoEncontrada(NotFoundMessage(numero)))
    case Some(_) =>
      RemoveKeepsInv(s, numero);
      Success(s.(accounts := s.accounts - {numero}))
  }

  /** Creating the same account twice: the second attempt is refused as a
      duplicate, so two creates of one number never both succeed. */
  lemma CreateTwiceIsDuplicate(s: Store, d: AccountDto)
    requires CrearCuenta(s, d).Success?
    ensures CrearCuenta(CrearCuenta(s, d).value.store, d)
            == Failure(CuentaDuplicada(DuplicateMessage(d.numeroCuenta.value)))
  {
  }

  /** Deleting a freshly created account gives back the table as it was
      (only the key generator has moved on). */
  lemma CreateThenDeleteRestores(s: Store, d: AccountDto)
    requires CrearCuenta(s, d).Success?
    ensures DeleteCuenta(CrearCuenta(s, d).value.store, d.numeroCuenta.value)
            == Success(Store(s.accounts, s.nextId + 1))
  {
    var n := d.numeroCuenta.value;
    var t := CrearCuenta(s, d).value.store;
    assert t.accounts - {n} == s.accounts;
  }

  /** Repeating an update changes nothing more: the second one finds the
      record already in the requested state. */
  lemma UpdateIsIdempotent(s: Store, numero: string, d: AccountDto)
    requires UpdateCuenta(s, numero, d).Success?
    ensures var c := UpdateCuenta(s, numero, d).value;
            UpdateCuenta(c.store, numero, d) == Success(c)
  {
    var c := UpdateCuenta(s, numero, d).value;
    assert c.store.accounts[numero := c.store.accounts[numero]] == c.store.accounts;
  }

  /** After an update, a lookup of the same number returns what the update
      returned. */
  lemma UpdateThenGet(s: Store, numero: string, d: AccountDto)
    requires UpdateCuenta(s, numero, d).Success?
    ensures var c := UpdateCuenta(s, numero, d).value;
            GetCuentaByNumero(c.store, numero) == Some(c.value)
  {
  }
}
