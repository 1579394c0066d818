/** The single boundary adapter (`GlobalExceptionHandler`) that turns every
    failure into a response. Only the two account errors pass their message
    through; any unexpected failure gets a fixed text. */
module ExceptionHandler {
  import opened Http
  import opened Errors

  const InternalErrorText := "Error interno del servidor."

  /** Each error kind has its own status, so the status alone tells the
      client which kind of failure occurred. */
  function HandleError(e: Error): (r: Response)
    ensures r.status == NotFound <==> e.CuentaNoEncontrada?
    ensures r.status == Conflict <==> e.CuentaDuplicada?
    ensures r.status == BadRequest <==> e.ArgumentoNoValido?
    ensures r.status == InternalServerError <==> e.Inesperado?
    ensures e.CuentaNoEncontrada? || e.CuentaDuplicada? ==> r.body == Text(e.message)
    ensures e.ArgumentoNoValido? ==> r.body == ErrorMap(e.fieldErrors)
    ensures e.Inesperado? ==> r.body == Text(InternalErrorText)
  {
    match e
    case CuentaNoEncontrada(message) => Response(NotFound, Text(message))
    case CuentaDuplicada(message) => Response(Conflict, Text(message))
    case ArgumentoNoValido(fieldErrors) => Response(BadRequest, ErrorMap(fieldErrors))
    case Inesperado(_) => Response(InternalServerError, Text(InternalErrorText))
  }

  /** An unexpected failure reveals nothing of its cause: any two of them get
      the same response. */
  lemma UnexpectedRevealsNothing(d1: string, d2: string)
    ensures HandleError(Inesperado(d1)) == HandleError(Inesperado(d2))
  {
  }
}
