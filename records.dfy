/** The flat records kept in the three JSON stores, the request bodies and the error statuses. */
module Records {

  /**
   * A row of the customer store or of the agent store. Both are dictionaries with the keys
   * `id`, `name`, `email`, `password`; customers also carry `department`. The customer store
   * holds only `Customer` rows and the agent store only `Agent` rows (`Services.CustomerRows`,
   * `Services.AgentRows`).
   */
  datatype Account =
    | Customer(id: string, name: string, department: string, email: string, password: string)
    | Agent(id: string, name: string, email: string, password: string)

  /** A row of the ticket store. */
  datatype Ticket = Ticket(
    ticketId: string,
    title: string,
    description: string,
    priority: string,
    status: string,
    createdBy: string,
    assignedTo: string,
    date: string)

  /** Request bodies. */
  datatype CustomerSignup = CustomerSignup(name: string, department: string, email: string, password: string)
  datatype AgentSignup = AgentSignup(name: string, email: string, password: string)
  datatype LoginRequest = LoginRequest(email: string, password: string)
  datatype TicketRequest = TicketRequest(title: string, description: string, priority: string, createdBy: string)

  /** The identifying part of a successful login response. */
  datatype Session = Session(userId: string, role: string)

  /** The ways a request can fail. */
  datatype HttpError =
    | EmailExists          // duplicate email on signup
    | InvalidCredentials   // no record matches on login
    | ServerError          // the last stored id cannot be split or parsed: an unhandled exception
  {
    function StatusCode(): nat {
      match this
      case EmailExists => 400
      case InvalidCredentials => 401
      case ServerError => 500
    }
  }

  const CustomerRole := "customer"
  const AgentRole := "agent"
  const StatusOpen := "Open"
  const NotAssigned := "Not Assigned"
}
