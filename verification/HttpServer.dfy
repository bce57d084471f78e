// The server a request came in on, if it carries one.
module HttpServer {
  datatype Server = NoServer | Server(id: nat)
}
