/** The failures the account layer reports, one constructor per exception type
    the global handler knows: account not found, duplicate account number,
    a request body that failed validation, and any other failure. */
module Errors {

  datatype Error =
    | CuentaNoEncontrada(message: string)
    | CuentaDuplicada(message: string)
    | ArgumentoNoValido(fieldErrors: map<string, string>)
    | Inesperado(detail: string)

  function NotFoundMessage(numero: string): string {
    "Cuenta no encontrada con numero: " + numero
  }

  function DuplicateMessage(numero: string): string {
    "Ya existe una cuenta con el numero: " + numero
  }
}
