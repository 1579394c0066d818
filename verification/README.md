# Bank-account records: a verified Dafny model

This project models the account-record layer of a small Spring Boot REST API for
bank accounts (`cuentabancaria`). The layer is a state machine over one table of
accounts `{id, numeroCuenta, nombreTitular, saldo}`, keyed by the account number
`numeroCuenta`. The model covers these parts:

- **Entity and DTO.** The entity is the persisted `CuentaBancaria`, in module `Entity`.
  The DTO is the request/response shape `CuentaBancariaDTO`, in module `Dto`. Both keep
  their bean-validation constraints: `@NotBlank` number and holder, and a `@NotNull @Min(0)`
  balance. Module `Text` states `@NotBlank` as Hibernate Validator implements it: the value
  is present and `String.trim()` leaves something.
- **Mapper** (`Mapper`). `toEntity` and `toDto` copy the four fields and do no validation.
- **Repository** (`Repository`). The table is a `map<string, Account>` keyed by account
  number, plus the store's key generator. `findByNumeroCuenta` is a map lookup.
- **Service** (`Service`). `crearCuenta`, `getCuentaByNumero`, `getAllCuentas`,
  `updateCuenta` and `deleteCuenta` are functions from a store to a `Result`. A success
  carries the new store and the operation's value. A failure carries an error and no
  store, so a failed operation cannot change the table.
- **Errors and handler** (`Errors`, `ExceptionHandler`). Each exception type the global
  handler knows is one constructor of `Error`. `HandleError` is the single adapter from
  error to HTTP status and body.
- **Controller** (`Controller`). The `/cuentas` endpoints run "validate the body, call the
  service, answer with a status". A request-routing function and a trace function show
  that any sequence of requests keeps the table's invariants.
- **Access rule** (`Security`). The ordered path rules of the security chain, evaluated
  first-match. They are proved to permit exactly the public allow-list and to ask for
  authentication everywhere else.

Modelling decisions:

- Every Java field is nullable, so every field is an `Option`. The mapper must be able to
  carry an invalid body unchanged.
- The balance is an exact decimal in the source. Here it is an integer.
- `id` is assigned by the store from its `nextId` counter on insert. An update keeps it.
- The persistence layer checks the entity's own constraints on insert and on update. A
  violation surfaces as the generic `Inesperado` error, which the handler answers with 500.
  The controller validates every body first, so on a well-formed table no endpoint answers 500.
- `findAll` has no ordering, so `GetAllCuentas` is a method that may list the records in
  any order. Its contract says each record appears exactly once.
- Whether a request is authenticated is decided by a token filter whose classes are not part
  of this model. `Security.Decide` therefore takes it as a flag. The decision depends only on
  the request's path and that flag, because the chain is configured stateless (no session).
- `SecurityConfig` permits only `/api/login` and the documentation/console trees, so
  `/api/register` needs authentication (`Security.RegisterNeedsAuthentication`).

## Model

| member | source | states |
|---|---|---|
| `Text.NotBlankIffTrimNonEmpty` | src/main/java/com/ejemplo/cuentabancaria/model/CuentaBancariaDTO.java:21-34 | a present string is non-blank (holds a character above U+0020) exactly when `trim()` leaves a non-empty string, so whitespace-only and empty values are blank |
| `Dto.FieldErrors` | src/main/java/com/ejemplo/cuentabancaria/model/CuentaBancariaDTO.java:21-44 | a field appears in the error map iff its constraint fails, with that constraint's declared message; a missing balance reports the `@NotNull` message, a negative one the `@Min` message; no other keys |
| `Dto.ValidIffNoFieldErrors` | src/main/java/com/ejemplo/cuentabancaria/model/CuentaBancariaDTO.java:21-44 | a body passes validation exactly when validation reports no field error |
| `Dto.IdUnconstrained` | src/main/java/com/ejemplo/cuentabancaria/model/CuentaBancariaDTO.java:18-19 | the `id` field, present or absent, never changes the validation verdict or the errors |
| `Dto.SaldoBoundary` | src/main/java/com/ejemplo/cuentabancaria/model/CuentaBancariaDTO.java:36-44 | a zero balance is accepted; a negative balance is rejected with exactly the `@Min` message |
| `Mapper.ToDto` | src/main/java/com/ejemplo/cuentabancaria/mapper/CuentaBancariaMapper.java:36-43 | the DTO is valid exactly when the entity is: the entity's and the DTO's constraints agree |
| `Mapper.ToEntity` | src/main/java/com/ejemplo/cuentabancaria/mapper/CuentaBancariaMapper.java:22-29 | converting back yields the original body (`toDto(toEntity(d)) == d`); no validation happens, so an invalid body gives an invalid entity and a valid one a valid entity |
| `Mapper.EntityRoundTrip` | src/main/java/com/ejemplo/cuentabancaria/mapper/CuentaBancariaMapper.java:22-43 | `toEntity(toDto(e)) == e` for every entity |
| `Mapper.ToEntityCopiesFields` | src/main/java/com/ejemplo/cuentabancaria/mapper/CuentaBancariaMapper.java:22-29 | id, number, holder and balance of the entity equal those of the body |
| `Mapper.ToDtoCopiesFields` | src/main/java/com/ejemplo/cuentabancaria/mapper/CuentaBancariaMapper.java:36-43 | id, number, holder and balance of the DTO equal those of the entity |
| `Repository.FindByNumero` | src/main/java/com/ejemplo/cuentabancaria/repository/CuentaBancariaRepository.java:30 | finds a record iff one is filed under the given (non-null) number, and then returns exactly the record filed under it; on a well-formed table the record found carries that number and is valid |
| `Repository.InsertKeepsInv` | src/main/java/com/ejemplo/cuentabancaria/model/CuentaBancaria.java:21-55 | inserting a valid record under an unused number with the next generated key keeps numbers unique, records valid and keys distinct |
| `Repository.ReplaceKeepsInv` | src/main/java/com/ejemplo/cuentabancaria/model/CuentaBancaria.java:21-55 | replacing a record by a valid one with the same number and key keeps the table's invariants |
| `Repository.RemoveKeepsInv` | src/main/java/com/ejemplo/cuentabancaria/model/CuentaBancaria.java:21-55 | removing a record keeps the table's invariants |
| `Service.CrearCuenta` | src/main/java/com/ejemplo/cuentabancaria/service/CuentaBancariaService.java:42-51 | fails with `CuentaDuplicada` and message "Ya existe una cuenta con el numero: "+number iff the number is on file; succeeds iff it is new and the body meets the constraints; on success exactly one record is added under that number, all others unchanged, with a key no record uses, and the returned DTO is the body with that key; the invariants are kept |
| `Service.GetCuentaByNumero` | src/main/java/com/ejemplo/cuentabancaria/service/CuentaBancariaService.java:58-61 | returns a DTO iff a record is filed under the number, and that DTO converts back to the stored record; on a well-formed table it carries the number asked for |
| `Service.GetAllCuentas` | src/main/java/com/ejemplo/cuentabancaria/service/CuentaBancariaService.java:67-70 | returns one DTO per stored record: same count, every entry the converted record of its number, every record listed, no number twice |
| `Service.UpdateCuenta` | src/main/java/com/ejemplo/cuentabancaria/service/CuentaBancariaService.java:79-90 | fails with `CuentaNoEncontrada` and message "Cuenta no encontrada con numero: "+number iff the number is absent; on success only holder and balance take the body's values, while number and key keep theirs whatever the body carries; every other record and the key generator are unchanged; the invariants are kept |
| `Service.DeleteCuenta` | src/main/java/com/ejemplo/cuentabancaria/service/CuentaBancariaService.java:97-103 | fails with `CuentaNoEncontrada` iff the number is absent; otherwise removes exactly that record, every other record unchanged; the invariants are kept |
| `Service.CreateTwiceIsDuplicate` | src/main/java/com/ejemplo/cuentabancaria/service/CuentaBancariaService.java:44-47 | after a successful create, creating the same body again fails as a duplicate, so two creates of one number never both succeed |
| `Service.CreateThenDeleteRestores` | src/main/java/com/ejemplo/cuentabancaria/service/CuentaBancariaService.java:42-103 | deleting a freshly created account restores the table's records exactly |
| `Service.UpdateIsIdempotent` | src/main/java/com/ejemplo/cuentabancaria/service/CuentaBancariaService.java:79-90 | repeating a successful update gives the same store and the same result |
| `Service.UpdateThenGet` | src/main/java/com/ejemplo/cuentabancaria/service/CuentaBancariaService.java:58-90 | after an update, looking up the same number returns what the update returned |
| `ExceptionHandler.HandleError` | src/main/java/com/ejemplo/cuentabancaria/config/GlobalExceptionHandler.java:17-39 | not-found gives 404, duplicate gives 409, invalid body gives 400 and unexpected gives 500, each status for that kind only; the two account errors pass their message through, a validation failure returns its field-to-message map, and an unexpected failure returns the fixed "Error interno del servidor." |
| `ExceptionHandler.UnexpectedRevealsNothing` | src/main/java/com/ejemplo/cuentabancaria/config/GlobalExceptionHandler.java:36-39 | the response to an unexpected failure does not depend on the failure's detail |
| `Controller.CrearCuenta` | src/main/java/com/ejemplo/cuentabancaria/controller/CuentaBancariaController.java:57-61 | an invalid body gets 400 with the field-error map and leaves the store as is; a duplicate number gets 409 with the duplicate message and leaves the store as is; otherwise 201 with the created DTO, which a later lookup returns, exactly one record added under the number and every other record unchanged; never 500; the invariants are kept |
| `Controller.GetCuentaByNumero` | src/main/java/com/ejemplo/cuentabancaria/controller/CuentaBancariaController.java:75-82 | 200 with the record's DTO iff the number is on file, otherwise 404 with "Cuenta no encontrada con numero: "+number |
| `Controller.GetAllCuentas` | src/main/java/com/ejemplo/cuentabancaria/controller/CuentaBancariaController.java:93-96 | always 200 with a list of every record, each exactly once |
| `Controller.UpdateCuenta` | src/main/java/com/ejemplo/cuentabancaria/controller/CuentaBancariaController.java:111-117 | an invalid body gets 400 before the number is looked up, with the store as is; an absent number gets 404; otherwise 200 with the updated DTO carrying the body's holder and balance and the old key and number, no record added or removed and every other record unchanged; on a well-formed table never 500; the invariants are kept |
| `Controller.DeleteCuenta` | src/main/java/com/ejemplo/cuentabancaria/controller/CuentaBancariaController.java:130-135 | 204 with no body iff the number is on file, after which it is gone and every remaining record is unchanged; otherwise 404 with the not-found message and the store as is |
| `Controller.Handle` | src/main/java/com/ejemplo/cuentabancaria/controller/CuentaBancariaController.java:57-135 | a lookup never changes the store; on a well-formed table every request keeps the invariants and answers 200, 201, 204, 400, 404 or 409, never 500 |
| `Controller.Run` | src/main/java/com/ejemplo/cuentabancaria/model/CuentaBancaria.java:33-55 | after any sequence of requests account numbers are still unique, every record still meets the entity constraints, and keys are still distinct |
| `Security.FirstMatch` | src/main/java/com/ejemplo/cuentabancaria/config/SecurityConfig.java:28-35 | yields the access level of the first rule that matches the path, or nothing iff no rule matches |
| `Security.ChainMatchesPublicPaths` | src/main/java/com/ejemplo/cuentabancaria/config/SecurityConfig.java:28-35 | the configured chain always matches; it permits exactly the public paths and requires authentication on every other path |
| `Security.Decide` | src/main/java/com/ejemplo/cuentabancaria/config/SecurityConfig.java:24-38 | a request is admitted iff its path is public or it is authenticated; the decision reads only the request |
| `Security.LoginIsPublic` | src/main/java/com/ejemplo/cuentabancaria/config/SecurityConfig.java:32 | an unauthenticated request to `/api/login` is admitted |
| `Security.SubtreesArePublic` | src/main/java/com/ejemplo/cuentabancaria/config/SecurityConfig.java:30 | every path below `/swagger-ui`, `/v3/api-docs` or `/h2-console` is admitted without authentication |
| `Security.RegisterNeedsAuthentication` | src/main/java/com/ejemplo/cuentabancaria/config/SecurityConfig.java:34 | an unauthenticated request to `/api/register` is rejected |
| `Security.CuentasNeedAuthentication` | src/main/java/com/ejemplo/cuentabancaria/config/SecurityConfig.java:34 | an unauthenticated request to `/cuentas` or any path starting with it is rejected |

## Left out

- Token issuance and the per-request token filter. Their classes (`JwtService`, `JwtAuthenticationFilter`) are not part of this model, and token signing is cryptography. Authentication enters `Security.Decide` as a flag.
- `AuthController` and `Usuario`. Login is a call into the framework's authentication manager and the token service. Registration only hashes a password and saves it. The user entity's capability methods are constant stubs.
- `verificarExistencia`. It makes an HTTP call back to the same process, which is I/O.
- Logging, API-documentation annotations, seed-data loading, bootstrap, the login DTOs, and the exception classes' `@ResponseStatus` annotations. The exception classes are the constructors of `Errors.Error`.
- Concurrency. The check-then-save in create is not atomic in the source. Racing creates rely on the database's unique column. Every operation here is sequential.
- Client-supplied ids on create. The source passes a body's `id` to `save`, and what the persistence layer then does with it (a merge) is not modelled. The store always assigns a fresh key on insert.
- Generated key values. Keys come from a counter. Only their distinctness is modelled, not the database's actual numbering.
- Decimal balances. The balance is an integer, so scale differences such as 50.0 vs 50.00 do not arise.
- Bodies that cannot be parsed as JSON. The generic handler would answer them with 500. The model starts from a parsed body.
- The status sent for a rejected request (401 or 403). It is set by the framework's default entry point, not by `SecurityConfig`, so `Security.Decide` returns only admit or reject.
- Path normalization. `Security.Decide` receives the normalized request path: no `.` or `..` segments and no `//`. The servlet container and the security firewall resolve or refuse other forms before the rule chain runs, and that step is not modelled.
- Trailing-slash and case variants of paths. The path-pattern matcher's options are framework defaults; paths are compared exactly, case-sensitively.
- Service.GetAllCuentas: requires that every record is filed under its own number. This holds for every table the operations build. The source needs no such precondition, because its table has no separate key.
- Controller.GetAllCuentas: carries the same requirement, for the same reason.
- Service.UpdateCuenta: its "succeeds iff" clause is stated only for a well-formed table. On an ill-formed table, an update can also fail on the existing record's own number.
