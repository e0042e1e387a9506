/** The JSON responses the route handlers return: a status code and a body. */
module Http {
  import opened DbSchema

  datatype ResponseBody =
    | Message(message: string)   // `{ message: ... }`
    | Rows(data: seq<Row>)       // `{ data: [...] }`
    | DataText(text: string)     // `{ data: "..." }`

  datatype Response = Response(status: int, body: ResponseBody)

  const Ok := 200
  const BadRequest := 400

  const DataReceived := "Data received"
  const InvalidJson := "Invalid JSON"
  const InvalidValues := "Invalid Values"
  const SomethingWentWrong := "Something Went Wrong"
}
