/**
 * The endpoints over the three stores. Each store file is a field holding its current list of
 * records (a missing file reads as the empty list); an endpoint loads the field, scans or
 * changes the list, and saves by assigning the field. Errors leave every store as it was.
 */
module Backend {
  import opened Outcomes
  import opened Records
  import opened Ids
  import opened Services

  class Database {
    var customers: seq<Account>
    var agents: seq<Account>
    var tickets: seq<Ticket>

    /**
     * A fresh deployment: none of the store files exists yet. Signup and delete keep each
     * account store to its one kind of row (`CustomerRows`, `AgentRows`).
     */
    constructor ()
      ensures customers == [] && agents == [] && tickets == []
    {
      customers, agents, tickets := [], [], [];
    }

    /** `POST /signup/customer`. */
    method SignupCustomer(user: CustomerSignup) returns (r: Outcome<HttpError>)
      modifies this`customers
      ensures var spec := Services.SignupCustomer(old(customers), user);
              if spec.Ok? then r == Pass && customers == spec.value
              else r == Fail(spec.error) && customers == old(customers)
      ensures r.Fail? ==> r.error.StatusCode() in {400, 500}
      ensures old(UniqueEmails(customers)) ==> UniqueEmails(customers)
      ensures old(CustomerRows(customers)) ==> CustomerRows(customers)
    {
      var loaded := customers;
      var i := 0;
      while i < |loaded|
        invariant 0 <= i <= |loaded|
        invariant forall j :: 0 <= j < i ==> loaded[j].email != user.email
      {
        if loaded[i].email == user.email {
          return Fail(EmailExists);
        }
        i := i + 1;
      }
      var newId := GenerateCustomerId(loaded);
      if newId.Err? {
        return Fail(newId.error);
      }
      customers := loaded + [Customer(newId.value, user.name, user.department, user.email, user.password)];
      r := Pass;
    }

    /** `POST /signup/agent`. */
    method SignupAgent(user: AgentSignup) returns (r: Outcome<HttpError>)
      modifies this`agents
      ensures var spec := Services.SignupAgent(old(agents), user);
              if spec.Ok? then r == Pass && agents == spec.value
              else r == Fail(spec.error) && agents == old(agents)
      ensures r.Fail? ==> r.error.StatusCode() in {400, 500}
      ensures old(UniqueEmails(agents)) ==> UniqueEmails(agents)
      ensures old(AgentRows(agents)) ==> AgentRows(agents)
    {
      var loaded := agents;
      var i := 0;
      while i < |loaded|
        invariant 0 <= i <= |loaded|
        invariant forall j :: 0 <= j < i ==> loaded[j].email != user.email
      {
        if loaded[i].email == user.email {
          return Fail(EmailExists);
        }
        i := i + 1;
      }
      var newId := GenerateAgentId(loaded);
      if newId.Err? {
        return Fail(newId.error);
      }
      agents := loaded + [Agent(newId.value, user.name, user.email, user.password)];
      r := Pass;
    }

    /** `POST /login/customer`: the first customer whose email and password both match. */
    method LoginCustomer(req: LoginRequest) returns (r: Result<Session, HttpError>)
      ensures r == Login(customers, req, CustomerRole)
      ensures r.Err? ==> r.error.StatusCode() == 401
    {
      var data := customers;
      var i := 0;
      while i < |data|
        invariant 0 <= i <= |data|
        invariant forall j :: 0 <= j < i ==> !Authenticates(data[j], req)
      {
        if data[i].email == req.email && data[i].password == req.password {
          return Ok(Session(data[i].id, CustomerRole));
        }
        i := i + 1;
      }
      r := Err(InvalidCredentials);
    }

    /** `POST /login/agent`: the first agent whose email and password both match. */
    method LoginAgent(req: LoginRequest) returns (r: Result<Session, HttpError>)
      ensures r == Login(agents, req, AgentRole)
      ensures r.Err? ==> r.error.StatusCode() == 401
    {
      var data := agents;
      var i := 0;
      while i < |data|
        invariant 0 <= i <= |data|
        invariant forall j :: 0 <= j < i ==> !Authenticates(data[j], req)
      {
        if data[i].email == req.email && data[i].password == req.password {
          return Ok(Session(data[i].id, AgentRole));
        }
        i := i + 1;
      }
      r := Err(InvalidCredentials);
    }

    /** `POST /create-ticket`, with the creation date supplied by the caller. */
    method CreateTicket(ticket: TicketRequest, date: string)
      modifies this`tickets
      ensures tickets == Services.CreateTicket(old(tickets), ticket, date)
      ensures NumberedTickets(old(tickets)) ==> NumberedTickets(tickets) && UniqueTicketIds(tickets)
    {
      var loaded := tickets;
      var ticketId := TicketId(|loaded| + 1);
      var newTicket := Ticket(ticketId, ticket.title, ticket.description, ticket.priority,
                              StatusOpen, ticket.createdBy, NotAssigned, date);
      tickets := loaded + [newTicket];
      if NumberedTickets(loaded) {
        CreateTicketKeepsNumbering(loaded, ticket, date);
      }
    }

    /** `GET /tickets/agent/{agent_id}`. */
    method GetAgentTickets(agentId: string) returns (r: seq<Ticket>)
      ensures r == AgentTickets(tickets, agentId)
    {
      r := AgentTickets(tickets, agentId);
    }

    /** `DELETE /delete-customer/{email}`: succeeds whether or not the email is present. */
    method DeleteCustomer(email: string)
      modifies this`customers
      ensures customers == DeleteByEmail(old(customers), email)
      ensures old(UniqueEmails(customers)) ==> UniqueEmails(customers)
      ensures old(CustomerRows(customers)) ==> CustomerRows(customers)
    {
      if UniqueEmails(customers) {
        DeletePreservesUniqueEmails(customers, email);
      }
      DeleteKeepsRowKind(customers, email);
      customers := DeleteByEmail(customers, email);
    }

    /** `DELETE /delete-agent/{email}`: succeeds whether or not the email is present. */
    method DeleteAgent(email: string)
      modifies this`agents
      ensures agents == DeleteByEmail(old(agents), email)
      ensures old(UniqueEmails(agents)) ==> UniqueEmails(agents)
      ensures old(AgentRows(agents)) ==> AgentRows(agents)
    {
      if UniqueEmails(agents) {
        DeletePreservesUniqueEmails(agents, email);
      }
      DeleteKeepsRowKind(agents, email);
      agents := DeleteByEmail(agents, email);
    }

    /** `DELETE /delete-ticket/{ticket_id}`: succeeds whether or not the id is present. */
    method DeleteTicket(ticketId: string)
      modifies this`tickets
      ensures tickets == Services.DeleteTicket(old(tickets), ticketId)
    {
      tickets := Services.DeleteTicket(tickets, ticketId);
    }
  }
}
