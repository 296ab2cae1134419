/** The records the backend returns: the geolocation record, the getIP envelope and an HTTP reply. */
module WebTypes {

  /** The geolocation collaborator's record; every field may be empty. */
  datatype IPInfoResponse = IPInfoResponse(
    ip: string,
    hostname: string,
    city: string,
    region: string,
    country: string,
    location: string,
    organization: string,
    postal: string,
    timezone: string,
    readme: string)

  /** The JSON envelope of the getIP endpoint. */
  datatype Result = Result(processedString: string, rawIspInfo: IPInfoResponse)

  /** The Go zero value of IPInfoResponse: what a special address reports. */
  const EmptyInfo := IPInfoResponse("", "", "", "", "", "", "", "", "", "")

  type Byte = bv8

  /** What a handler leaves on the wire: status code, the headers it set, body bytes. */
  datatype Response = Response(status: int, headers: map<string, string>, body: seq<Byte>)

  const StatusOK := 200
  const StatusBadRequest := 400
}
