/** The shapes shared by the pages' exchanges with the REST API. Each HTTP
    call of a page is modelled as a pair of methods: one that starts the
    operation and one that receives its outcome as a `Response`. */
module Api {

  /** The outcome of one HTTP call: the decoded body of a response, or a
      transport failure (no interpretable response) with its description. */
  datatype Response<T> = Ok(payload: T) | TransportError(msg: string)

  /** The prefix of the message synthesized for a transport failure. */
  const NetworkErrorPrefix: string := "Network error: "

  /** A file chosen in a file picker or dropped on a page. */
  datatype FileInfo = FileInfo(name: string, size: nat)

  /** One student record as the API returns it. */
  datatype Student = Student(
    studentId: int,
    firstName: string,
    lastName: string,
    dob: string,
    className: string,
    score: real)
}
