/** The account endpoints under `/cuentas` (`CuentaBancariaController`): each
    validates its body where it has one, calls the service, and answers with a
    success status, or lets the exception handler answer for the failure. A
    body that fails validation is refused before the service runs. */
module Controller {
  import opened Wrappers
  import opened Dto
  import opened Mapper
  import opened Repository
  import opened Errors
  import opened Http
  import opened ExceptionHandler
  import Service

  /** The store after a request, with the response sent back. */
  datatype Exchange = Exchange(store: Store, response: Response)

  /** `POST /cuentas`. */
  function CrearCuenta(s: Store, d: AccountDto): (x: Exchange)
    ensures !Dto.Valid(d) ==>
              x == Exchange(s, Response(BadRequest, ErrorMap(FieldErrors(d))))
    ensures Dto.Valid(d) && d.numeroCuenta.value in s.accounts ==>
              x == Exchange(s, Response(Conflict, Text(DuplicateMessage(d.numeroCuenta.value))))
    ensures Dto.Valid(d) && d.numeroCuenta.value !in s.accounts ==>
              && x.response.status == Created
              && x.response.body.One?
              && x.response.body.account == d.(id := x.response.body.account.id)
              && Service.GetCuentaByNumero(x.store, d.numeroCuenta.value) == Some(x.response.body.account)
              && x.store.accounts.Keys == s.accounts.Keys + {d.numeroCuenta.value}
              && (forall k | k in s.accounts :: x.store.accounts[k] == s.accounts[k])
    ensures x.response.status in {Created, BadRequest, Conflict}
    ensures Inv(s) ==> Inv(x.store)
  {
    if !Dto.Valid(d) then
      Exchange(s, HandleError(ArgumentoNoValido(FieldErrors(d))))
    else
      match Service.CrearCuenta(s, d)
      case Success(c) => Exchange(c.store, Response(Created, One(c.value)))
      case Failure(e) => Exchange(s, HandleError(e))
  }

  /** `GET /cuentas/{numeroDeCuenta}`. */
  function GetCuentaByNumero(s: Store, numero: string): (r: Response)
    ensures numero in s.accounts <==> r.status == Ok
    ensures numero in s.accounts ==> r.body == One(ToDto(s.accounts[numero]))
    ensures numero !in s.accounts ==> r == Response(NotFound, Text(NotFoundMessage(numero)))
  {
    match Service.GetCuentaByNumero(s, numero)
    case Some(d) => Response(Ok, One(d))
    case None => HandleError(CuentaNoEncontrada(NotFoundMessage(numero)))
  }

  /** `GET /cuentas`: always answers 200 with the whole table. */
  method GetAllCuentas(s: Store) returns (r: Response)
    requires FiledByNumber(s)
    ensures r.status == Ok && r.body.Many? && Service.Lists(r.body.accounts, s)
  {
    var all := Service.GetAllCuentas(s);
    r := Response(Ok, Many(all));
  }

  /** `PUT /cuentas/{numeroDeCuenta}`: the body is validated before the
      number is looked up. */
  function UpdateCuenta(s: Store, numero: string, d: AccountDto): (x: Exchange)
    ensures !Dto.Valid(d) ==>
              x == Exchange(s, Response(BadRequest, ErrorMap(FieldErrors(d))))
    ensures Dto.Valid(d) && numero !in s.accounts ==>
              x == Exchange(s, Response(NotFound, Text(NotFoundMessage(numero))))
    ensures Inv(s) && Dto.Valid(d) && numero in s.accounts ==>
              && x.response.status == Ok
              && numero in x.store.accounts
              && x.response.body == One(ToDto(x.store.accounts[numero]))
              && x.store.accounts[numero].nombreTitular == d.nombreTitular
              && x.store.accounts[numero].saldo == d.saldo
              && x.store.accounts[numero].id == s.accounts[numero].id
              && x.store.accounts[numero].numeroCuenta == s.accounts[numero].numeroCuenta
              && x.store.accounts.Keys == s.accounts.Keys
              && (forall k | k in s.accounts && k != numero :: x.store.accounts[k] == s.accounts[k])
    ensures Inv(s) ==> x.response.status in {Ok, BadRequest, NotFound}
    ensures Inv(s) ==> Inv(x.store)
  {
    if !Dto.Valid(d) then
      Exchange(s, HandleError(ArgumentoNoValido(FieldErrors(d))))
    else
      match Service.UpdateCuenta(s, numero, d)
      case Success(c) => Exchange(c.store, Response(Ok, One(c.value)))
      case Failure(e) => Exchange(s, HandleError(e))
  }

  /** `DELETE /cuentas/{numeroDeCuenta}`: 204 with no body, or 404. */
  function DeleteCuenta(s: Store, numero: string): (x: Exchange)
    ensures numero in s.accounts <==> x.response == Response(NoContent, NoBody)
    ensures numero !in s.accounts ==>
              x == Exchange(s, Response(NotFound, Text(NotFoundMessage(numero))))
    ensures numero in s.accounts ==>
              && x.store.accounts.Keys == s.accounts.Keys - {numero}
              && (forall k | k in x.store.accounts :: x.store.accounts[k] == s.accounts[k])
              && Service.GetCuentaByNumero(x.store, numero) == None
    ensures Inv(s) ==> Inv(x.store)
  {
    match Service.DeleteCuenta(s, numero)
    case Success(t) => Exchange(t, Response(NoContent, NoBody))
    case Failure(e) => Exchange(s, HandleError(e))
  }

  /** A request to one of the single-record endpoints. */
  datatype Request =
    | Post(body: AccountDto)
    | Get(numero: string)
    | Put(numero: string, body: AccountDto)
    | Delete(numero: string)

  /** Routes a request to its endpoint. A lookup never changes the table, and
      on a well-formed table no request ends in a server error. */
  function Handle(s: Store, req: Request): (x: Exchange)
    ensures req.Get? ==> x.store == s
    ensures Inv(s) ==> Inv(x.store)
    ensures Inv(s) ==>
              x.response.status in {Ok, Created, NoContent, BadRequest, NotFound, Conflict}
  {
    match req
    case Post(d) => CrearCuenta(s, d)
    case Get(n) => Exchange(s, GetCuentaByNumero(s, n))
    case Put(n, d) => UpdateCuenta(s, n, d)
    case Delete(n) => DeleteCuenta(s, n)
  }

  /** The table after serving `reqs` one after another. Any sequence of
      requests keeps the table's invariants: account numbers stay unique,
      every record stays valid, and keys stay distinct. */
  function Run(s: Store, reqs: seq<Request>): (t: Store)
    ensures Inv(s) ==> Inv(t)
    decreases |reqs|
  {
    if reqs == [] then s else Run(Handle(s, reqs[0]).store, reqs[1..])
  }
}
