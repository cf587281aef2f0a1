/** A request or response while it is being parsed. */
module Messages {
  import opened HeaderFields

  datatype Message = Message(
    requestMethod: string,
    uri: string,
    statusCode: nat,
    statusMessage: string,
    majorVersion: nat,
    minorVersion: nat,
    headers: HeaderData,
    body: string)

  const FRESH_MESSAGE := Message("", "", 0, "", 0, 0, NO_HEADERS, "")

  class HttpMessage {
    var method_: string
    var uri_: string
    var status_code_: nat
    var status_message_: string
    var major_version_: nat
    var minor_version_: nat
    const headers_: Headers
    var body_: string

    constructor ()
      ensures Data() == FRESH_MESSAGE
      ensures fresh(headers_)
    {
      method_, uri_, status_code_, status_message_ := "", "", 0, "";
      major_version_, minor_version_, body_ := 0, 0, "";
      headers_ := new Headers();
    }

    /** The message as a value. */
    function Data(): Message
      reads this, headers_
    {
      Message(method_, uri_, status_code_, status_message_, major_version_, minor_version_,
              headers_.Data(), body_)
    }
  }
}
