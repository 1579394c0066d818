/** The transport-level shape of an answer: a status code and a body. */
module Http {
  import opened Dto

  const Ok := 200
  const Created := 201
  const NoContent := 204
  const BadRequest := 400
  const NotFound := 404
  const Conflict := 409
  const InternalServerError := 500

  datatype Body =
    | NoBody
    | One(account: AccountDto)
    | Many(accounts: seq<AccountDto>)
    | Text(text: string)
    | ErrorMap(errors: map<string, string>)

  datatype Response = Response(status: int, body: Body)
}
