/**
 * What each endpoint does to the list it loads, as functions of that list: signup, login,
 * ticket creation, the per-agent ticket query and the three deletes. The lemmas relate the
 * operations to each other.
 */
module Services {
  import opened Outcomes
  import opened Text
  import opened Records
  import opened Ids
  import opened Lists

  predicate HasEmail(rs: seq<Account>, email: string) {
    exists i :: 0 <= i < |rs| && rs[i].email == email
  }

  /** No two records share an email (checked at signup only, never stored as a constraint). */
  predicate UniqueEmails(rs: seq<Account>) {
    forall i, j :: 0 <= i < j < |rs| ==> rs[i].email != rs[j].email
  }

  /** Every row of the customer store is a customer record. */
  predicate CustomerRows(rs: seq<Account>) {
    forall i :: 0 <= i < |rs| ==> rs[i].Customer?
  }

  /** Every row of the agent store is an agent record. */
  predicate AgentRows(rs: seq<Account>) {
    forall i :: 0 <= i < |rs| ==> rs[i].Agent?
  }

  // ------------------------------------------------------------------ signup

  /** The customer store after `POST /signup/customer`, or the error it answers with. */
  function SignupCustomer(customers: seq<Account>, user: CustomerSignup): (r: Result<seq<Account>, HttpError>)
    ensures r == Err(EmailExists) <==> HasEmail(customers, user.email)
    ensures r == Err(ServerError) <==> !HasEmail(customers, user.email) && GenerateCustomerId(customers).Err?
    ensures r.Err? ==> r.error == EmailExists || r.error == ServerError
    ensures r.Ok? ==> |r.value| == |customers| + 1 && r.value[..|customers|] == customers
    ensures r.Ok? ==> (r.value[|customers|] ==
      Customer(GenerateCustomerId(customers).value, user.name, user.department, user.email, user.password))
    ensures r.Ok? && UniqueEmails(customers) ==> UniqueEmails(r.value)
    ensures r.Ok? && CustomerRows(customers) ==> CustomerRows(r.value)
  {
    if HasEmail(customers, user.email) then Err(EmailExists)
    else
      match GenerateCustomerId(customers)
      case Err(e) => Err(e)
      case Ok(id) => Ok(customers + [Customer(id, user.name, user.department, user.email, user.password)])
  }

  /** The agent store after `POST /signup/agent`, or the error it answers with. */
  function SignupAgent(agents: seq<Account>, user: AgentSignup): (r: Result<seq<Account>, HttpError>)
    ensures r == Err(EmailExists) <==> HasEmail(agents, user.email)
    ensures r == Err(ServerError) <==> !HasEmail(agents, user.email) && GenerateAgentId(agents).Err?
    ensures r.Err? ==> r.error == EmailExists || r.error == ServerError
    ensures r.Ok? ==> |r.value| == |agents| + 1 && r.value[..|agents|] == agents
    ensures r.Ok? ==> r.value[|agents|] == Agent(GenerateAgentId(agents).value, user.name, user.email, user.password)
    ensures r.Ok? && UniqueEmails(agents) ==> UniqueEmails(r.value)
    ensures r.Ok? && AgentRows(agents) ==> AgentRows(r.value)
  {
    if HasEmail(agents, user.email) then Err(EmailExists)
    else
      match GenerateAgentId(agents)
      case Err(e) => Err(e)
      case Ok(id) => Ok(agents + [Agent(id, user.name, user.email, user.password)])
  }

  // ------------------------------------------------------------------ login

  predicate Authenticates(a: Account, req: LoginRequest) {
    a.email == req.email && a.password == req.password
  }

  /** The position of the first record whose email and password both match. */
  function FirstMatch(rs: seq<Account>, req: LoginRequest): (r: Option<nat>)
    ensures r.None? <==> forall i :: 0 <= i < |rs| ==> !Authenticates(rs[i], req)
    ensures r.Some? ==> r.value < |rs| && Authenticates(rs[r.value], req)
    ensures r.Some? ==> forall j :: 0 <= j < r.value ==> !Authenticates(rs[j], req)
    decreases |rs|
  {
    if rs == [] then None
    else if Authenticates(rs[0], req) then Some(0)
    else
      match FirstMatch(rs[1..], req)
      case None => None
      case Some(k) => Some(k + 1)
  }

  /** The answer of `POST /login/customer` (role "customer") or `POST /login/agent` (role "agent"). */
  function Login(rs: seq<Account>, req: LoginRequest, role: string): (r: Result<Session, HttpError>)
    ensures r.Err? <==> forall i :: 0 <= i < |rs| ==> !Authenticates(rs[i], req)
    ensures r.Err? ==> r.error == InvalidCredentials
    ensures r.Ok? ==> r.value.role == role
    ensures r.Ok? ==> exists i :: 0 <= i < |rs| && Authenticates(rs[i], req) && r.value.userId == rs[i].id
                                  && forall j :: 0 <= j < i ==> !Authenticates(rs[j], req)
  {
    match FirstMatch(rs, req)
    case None => Err(InvalidCredentials)
    case Some(i) => Ok(Session(rs[i].id, role))
  }

  // ------------------------------------------------------------------ tickets

  /** The ticket store after `POST /create-ticket`, created on `date`. */
  function CreateTicket(tickets: seq<Ticket>, req: TicketRequest, date: string): (r: seq<Ticket>)
    ensures |r| == |tickets| + 1 && r[..|tickets|] == tickets
    ensures r[|tickets|].ticketId == TicketId(|tickets| + 1)
    ensures r[|tickets|].status == StatusOpen && r[|tickets|].assignedTo == NotAssigned
    ensures r[|tickets|].title == req.title && r[|tickets|].description == req.description
    ensures r[|tickets|].priority == req.priority && r[|tickets|].createdBy == req.createdBy
    ensures r[|tickets|].date == date
  {
    tickets + [Ticket(TicketId(|tickets| + 1), req.title, req.description, req.priority,
                      StatusOpen, req.createdBy, NotAssigned, date)]
  }

  function IsAssignedTo(agentId: string): Ticket -> bool {
    (t: Ticket) => t.assignedTo == agentId
  }

  /** The answer of `GET /tickets/agent/{agent_id}`. */
  function AgentTickets(tickets: seq<Ticket>, agentId: string): (r: seq<Ticket>)
    ensures forall i :: 0 <= i < |r| ==> r[i].assignedTo == agentId
    ensures forall t :: multiset(r)[t] == if t.assignedTo == agentId then multiset(tickets)[t] else 0
  {
    FilterCounts(tickets, IsAssignedTo(agentId));
    Filter(tickets, IsAssignedTo(agentId))
  }

  // ------------------------------------------------------------------ deletes

  function EmailDiffers(email: string): Account -> bool {
    (a: Account) => a.email != email
  }

  function TicketIdDiffers(ticketId: string): Ticket -> bool {
    (t: Ticket) => t.ticketId != ticketId
  }

  /** The store after `DELETE /delete-customer/{email}` or `DELETE /delete-agent/{email}`. */
  function DeleteByEmail(rs: seq<Account>, email: string): (r: seq<Account>)
    ensures !HasEmail(r, email)
    ensures forall a :: multiset(r)[a] == if a.email == email then 0 else multiset(rs)[a]
    ensures !HasEmail(rs, email) ==> r == rs
  {
    FilterCounts(rs, EmailDiffers(email));
    FilterKeepsAllWhen(rs, EmailDiffers(email));
    Filter(rs, EmailDiffers(email))
  }

  /** The ticket store after `DELETE /delete-ticket/{ticket_id}`. */
  function DeleteTicket(tickets: seq<Ticket>, ticketId: string): (r: seq<Ticket>)
    ensures forall i :: 0 <= i < |r| ==> r[i].ticketId != ticketId
    ensures forall t :: multiset(r)[t] == if t.ticketId == ticketId then 0 else multiset(tickets)[t]
    ensures (forall i :: 0 <= i < |tickets| ==> tickets[i].ticketId != ticketId) ==> r == tickets
  {
    FilterCounts(tickets, TicketIdDiffers(ticketId));
    FilterKeepsAllWhen(tickets, TicketIdDiffers(ticketId));
    Filter(tickets, TicketIdDiffers(ticketId))
  }

  // ------------------------------------------------------------------ properties of signup

  /** Records whose ids are "<prefix>-<first>", "<prefix>-<first+1>", ... in list order. */
  predicate SequentialIds(rs: seq<Account>, prefix: string, first: nat) {
    forall i :: 0 <= i < |rs| ==> rs[i].id == FormatId(prefix, first + i)
  }

  /**
   * On a store that only signups have built, customer signup never hits the malformed-id
   * error and keeps the ids consecutive, starting at CUST-1001.
   */
  lemma SignupCustomerKeepsSequentialIds(customers: seq<Account>, user: CustomerSignup)
    requires SequentialIds(customers, "CUST", 1001)
    ensures var r := SignupCustomer(customers, user);
            (r.Err? ==> r.error == EmailExists) && (r.Ok? ==> SequentialIds(r.value, "CUST", 1001))
  {
    NextCustomerIdOnSequentialStore(customers);
    var r := SignupCustomer(customers, user);
    if r.Ok? {
      SequentialIdsExtend(customers, r.value, "CUST", 1001);
    }
  }

  lemma NextCustomerIdOnSequentialStore(customers: seq<Account>)
    requires SequentialIds(customers, "CUST", 1001)
    ensures GenerateCustomerId(customers) == Ok(FormatId("CUST", 1001 + |customers|))
  {
    var n := |customers|;
    if customers == [] {
      CustomerSeed();
    } else {
      var last := 1001 + (n - 1);
      assert IdSuffix(LastId(customers)) == Some(last) by {
        assert LastId(customers) == FormatId("CUST", last);
        IdRoundTrip("CUST", last);
      }
    }
  }

  /** The same for agents, starting at AGT-2001. */
  lemma SignupAgentKeepsSequentialIds(agents: seq<Account>, user: AgentSignup)
    requires SequentialIds(agents, "AGT", 2001)
    ensures var r := SignupAgent(agents, user);
            (r.Err? ==> r.error == EmailExists) && (r.Ok? ==> SequentialIds(r.value, "AGT", 2001))
  {
    NextAgentIdOnSequentialStore(agents);
    var r := SignupAgent(agents, user);
    if r.Ok? {
      SequentialIdsExtend(agents, r.value, "AGT", 2001);
    }
  }

  lemma NextAgentIdOnSequentialStore(agents: seq<Account>)
    requires SequentialIds(agents, "AGT", 2001)
    ensures GenerateAgentId(agents) == Ok(FormatId("AGT", 2001 + |agents|))
  {
    var n := |agents|;
    if agents == [] {
      AgentSeed();
    } else {
      var last := 2001 + (n - 1);
      assert IdSuffix(LastId(agents)) == Some(last) by {
        assert LastId(agents) == FormatId("AGT", last);
        IdRoundTrip("AGT", last);
      }
    }
  }

  lemma SequentialIdsExtend(rs: seq<Account>, s: seq<Account>, prefix: string, first: nat)
    requires SequentialIds(rs, prefix, first)
    requires |s| == |rs| + 1 && s[..|rs|] == rs && s[|rs|].id == FormatId(prefix, first + |rs|)
    ensures SequentialIds(s, prefix, first)
  {
    forall i | 0 <= i < |s| ensures s[i].id == FormatId(prefix, first + i) {
      if i < |rs| {
        assert s[i] == s[..|rs|][i];
      }
    }
  }

  /** Consecutive ids are distinct ids. */
  lemma SequentialIdsDistinct(rs: seq<Account>, prefix: string, first: nat)
    requires '-' !in prefix && SequentialIds(rs, prefix, first)
    ensures forall i, j :: 0 <= i < j < |rs| ==> rs[i].id != rs[j].id
  {
    forall i, j | 0 <= i < j < |rs| ensures rs[i].id != rs[j].id {
      FormatIdInjective(prefix, first + i, first + j);
    }
  }

  /**
   * After a successful signup the next one cannot fail on the stored id, and the id it issues
   * has a suffix one greater than the previous one.
   */
  lemma ConsecutiveCustomerIds(customers: seq<Account>, first: CustomerSignup, second: CustomerSignup)
    requires SignupCustomer(customers, first).Ok?
    ensures var s1 := SignupCustomer(customers, first).value;
            var r2 := SignupCustomer(s1, second);
            (r2.Err? ==> r2.error == EmailExists) &&
            (r2.Ok? ==> IdSuffix(LastId(r2.value)) == Some(IdSuffix(LastId(s1)).value + 1))
  {
  }

  /** The same for agents. */
  lemma ConsecutiveAgentIds(agents: seq<Account>, first: AgentSignup, second: AgentSignup)
    requires SignupAgent(agents, first).Ok?
    ensures var s1 := SignupAgent(agents, first).value;
            var r2 := SignupAgent(s1, second);
            (r2.Err? ==> r2.error == EmailExists) &&
            (r2.Ok? ==> IdSuffix(LastId(r2.value)) == Some(IdSuffix(LastId(s1)).value + 1))
  {
  }

  /** A fresh customer store issues CUST-1001, then CUST-1002. */
  lemma FirstTwoCustomerIds(first: CustomerSignup, second: CustomerSignup)
    requires first.email != second.email
    ensures SignupCustomer([], first).Ok?
    ensures var s1 := SignupCustomer([], first).value;
            LastId(s1) == "CUST-1001" &&
            SignupCustomer(s1, second).Ok? && LastId(SignupCustomer(s1, second).value) == "CUST-1002"
  {
    var s1 := SignupCustomer([], first).value;
    assert s1 == [Customer("CUST-1001", first.name, first.department, first.email, first.password)];
    assert !HasEmail(s1, second.email);
    CustomerSeed();
    assert GenerateCustomerId(s1) == Ok(FormatId("CUST", 1002));
    SecondCustomerId();
  }

  lemma SecondCustomerId()
    ensures FormatId("CUST", 1002) == "CUST-1002"
  {
    assert DecimalString(1) == "1";
    assert DecimalString(10) == "10";
    assert DecimalString(100) == "100";
    assert DecimalString(1002) == "1002";
  }

  /** A customer who has just signed up can log in, and the login returns the new id. */
  lemma LoginAfterSignupCustomer(customers: seq<Account>, user: CustomerSignup)
    requires SignupCustomer(customers, user).Ok?
    ensures var s := SignupCustomer(customers, user).value;
            Login(s, LoginRequest(user.email, user.password), CustomerRole) == Ok(Session(LastId(s), CustomerRole))
  {
    var s := SignupCustomer(customers, user).value;
    LoginFindsAppended(customers, s[|customers|], LoginRequest(user.email, user.password), CustomerRole);
    assert s == customers + [s[|customers|]];
  }

  /** An agent who has just signed up can log in, and the login returns the new id. */
  lemma LoginAfterSignupAgent(agents: seq<Account>, user: AgentSignup)
    requires SignupAgent(agents, user).Ok?
    ensures var s := SignupAgent(agents, user).value;
            Login(s, LoginRequest(user.email, user.password), AgentRole) == Ok(Session(LastId(s), AgentRole))
  {
    var s := SignupAgent(agents, user).value;
    LoginFindsAppended(agents, s[|agents|], LoginRequest(user.email, user.password), AgentRole);
    assert s == agents + [s[|agents|]];
  }

  lemma LoginFindsAppended(rs: seq<Account>, a: Account, req: LoginRequest, role: string)
    requires !HasEmail(rs, a.email) && Authenticates(a, req)
    ensures Login(rs + [a], req, role) == Ok(Session(a.id, role))
  {
    assert Authenticates((rs + [a])[|rs|], req);
  }

  /** Deleting the email that has just signed up gives back the store as it was before. */
  lemma DeleteUndoesSignupCustomer(customers: seq<Account>, user: CustomerSignup)
    requires SignupCustomer(customers, user).Ok?
    ensures DeleteByEmail(SignupCustomer(customers, user).value, user.email) == customers
  {
    var s := SignupCustomer(customers, user).value;
    assert s == customers + [s[|customers|]];
    DeleteAppended(customers, s[|customers|]);
  }

  /** The same for agents. */
  lemma DeleteUndoesSignupAgent(agents: seq<Account>, user: AgentSignup)
    requires SignupAgent(agents, user).Ok?
    ensures DeleteByEmail(SignupAgent(agents, user).value, user.email) == agents
  {
    var s := SignupAgent(agents, user).value;
    assert s == agents + [s[|agents|]];
    DeleteAppended(agents, s[|agents|]);
  }

  lemma DeleteAppended(rs: seq<Account>, a: Account)
    requires !HasEmail(rs, a.email)
    ensures DeleteByEmail(rs + [a], a.email) == rs
  {
    var keep := EmailDiffers(a.email);
    FilterConcat(rs, [a], keep);
    FilterKeepsAll(rs, keep);
    assert Filter([a], keep) == [];
  }

  /**
   * The id scheme reissues ids: once the newest customer is deleted, the next signup is given
   * the id that customer had.
   */
  lemma DeletedCustomerIdIsReissued(customers: seq<Account>, user: CustomerSignup)
    requires SignupCustomer(customers, user).Ok?
    ensures var s := SignupCustomer(customers, user).value;
            GenerateCustomerId(DeleteByEmail(s, user.email)) == Ok(LastId(s))
  {
    DeleteUndoesSignupCustomer(customers, user);
  }

  /** The same reissue for agents. */
  lemma DeletedAgentIdIsReissued(agents: seq<Account>, user: AgentSignup)
    requires SignupAgent(agents, user).Ok?
    ensures var s := SignupAgent(agents, user).value;
            GenerateAgentId(DeleteByEmail(s, user.email)) == Ok(LastId(s))
  {
    DeleteUndoesSignupAgent(agents, user);
  }

  // ------------------------------------------------------------------ properties of tickets

  /** Tickets numbered TICK001, TICK002, ... in list order, as creation alone leaves them. */
  predicate NumberedTickets(tickets: seq<Ticket>) {
    forall i :: 0 <= i < |tickets| ==> tickets[i].ticketId == TicketId(i + 1)
  }

  predicate UniqueTicketIds(tickets: seq<Ticket>) {
    forall i, j :: 0 <= i < j < |tickets| ==> tickets[i].ticketId != tickets[j].ticketId
  }

  /** Creating a ticket keeps the numbering, and numbered tickets have distinct ids. */
  lemma CreateTicketKeepsNumbering(tickets: seq<Ticket>, req: TicketRequest, date: string)
    requires NumberedTickets(tickets)
    ensures NumberedTickets(CreateTicket(tickets, req, date))
    ensures UniqueTicketIds(CreateTicket(tickets, req, date))
  {
    var r := CreateTicket(tickets, req, date);
    assert NumberedTickets(r) by {
      forall i | 0 <= i < |r| ensures r[i].ticketId == TicketId(i + 1) {
        if i < |tickets| {
          assert r[i] == tickets[i];
        }
      }
    }
    NumberedTicketsUnique(r);
  }

  lemma NumberedTicketsUnique(tickets: seq<Ticket>)
    requires NumberedTickets(tickets)
    ensures UniqueTicketIds(tickets)
  {
    forall i, j | 0 <= i < j < |tickets| ensures tickets[i].ticketId != tickets[j].ticketId {
      TicketIdInjective(i + 1, j + 1);
    }
  }

  /**
   * The count-based ticket id collides after a delete: removing any numbered ticket but the
   * last and creating one more issues the id the last ticket already has.
   */
  lemma DeleteThenCreateDuplicatesTicketId(tickets: seq<Ticket>, k: nat, req: TicketRequest, date: string)
    requires NumberedTickets(tickets) && k + 1 < |tickets|
    ensures var r := CreateTicket(DeleteTicket(tickets, tickets[k].ticketId), req, date);
            r[|r| - 1].ticketId == tickets[|tickets| - 1].ticketId && !UniqueTicketIds(r)
  {
    var n := |tickets|;
    var d := DeleteTicket(tickets, tickets[k].ticketId);
    DeleteKeepsLastTicket(tickets, k);
    assert tickets[n - 1].ticketId == TicketId(n);
    CreateAfterLastNumber(d, req, date);
  }

  lemma DeleteKeepsLastTicket(tickets: seq<Ticket>, k: nat)
    requires NumberedTickets(tickets) && k + 1 < |tickets|
    ensures var d := DeleteTicket(tickets, tickets[k].ticketId);
            |d| + 1 == |tickets| && d[|d| - 1] == tickets[|tickets| - 1]
  {
    DeleteNumberedTicket(tickets, k);
    var rest := tickets[..k] + tickets[k + 1..];
    assert rest[|rest| - 1] == tickets[|tickets| - 1];
  }

  /** Creating a ticket after a store whose last ticket already carries the next number. */
  lemma CreateAfterLastNumber(rest: seq<Ticket>, req: TicketRequest, date: string)
    requires rest != [] && rest[|rest| - 1].ticketId == TicketId(|rest| + 1)
    ensures var r := CreateTicket(rest, req, date);
            r[|r| - 1].ticketId == rest[|rest| - 1].ticketId && !UniqueTicketIds(r)
  {
    var r := CreateTicket(rest, req, date);
    assert r[|r| - 2] == rest[|rest| - 1];
  }

  /** On a store with distinct ticket ids, deleting one ticket's id removes exactly that ticket. */
  lemma DeleteNumberedTicket(tickets: seq<Ticket>, k: nat)
    requires NumberedTickets(tickets) && k < |tickets|
    ensures DeleteTicket(tickets, tickets[k].ticketId) == tickets[..k] + tickets[k + 1..]
  {
    NumberedTicketsUnique(tickets);
    DeleteUniqueTicket(tickets, k);
  }

  lemma DeleteUniqueTicket(tickets: seq<Ticket>, k: nat)
    requires UniqueTicketIds(tickets) && k < |tickets|
    ensures DeleteTicket(tickets, tickets[k].ticketId) == tickets[..k] + tickets[k + 1..]
  {
    var keep := TicketIdDiffers(tickets[k].ticketId);
    forall i | 0 <= i < |tickets| && i != k ensures keep(tickets[i]) {
      if i < k {
        assert tickets[i].ticketId != tickets[k].ticketId;
      } else {
        assert tickets[k].ticketId != tickets[i].ticketId;
      }
    }
    FilterDropsOnly(tickets, k, keep);
  }

  /** A new ticket shows up only in the "Not Assigned" query; every other agent's list is unchanged. */
  lemma NewTicketIsUnassigned(tickets: seq<Ticket>, req: TicketRequest, date: string, agentId: string)
    ensures var r := CreateTicket(tickets, req, date);
            AgentTickets(r, agentId) ==
              AgentTickets(tickets, agentId) + (if agentId == NotAssigned then [r[|tickets|]] else [])
  {
    var r := CreateTicket(tickets, req, date);
    var t := r[|tickets|];
    var keep := IsAssignedTo(agentId);
    assert r == tickets + [t];
    FilterConcat(tickets, [t], keep);
    assert [t][1..] == [];
    assert Filter([t], keep) == if keep(t) then [t] else [];
    assert keep(t) <==> agentId == NotAssigned;
  }

  // ------------------------------------------------------------------ properties of deletes

  /** Deleting twice by the same email is deleting once. */
  lemma DeleteByEmailIdempotent(rs: seq<Account>, email: string)
    ensures DeleteByEmail(DeleteByEmail(rs, email), email) == DeleteByEmail(rs, email)
  {
    FilterIdempotent(rs, EmailDiffers(email));
  }

  /** Deleting twice by the same ticket id is deleting once. */
  lemma DeleteTicketIdempotent(tickets: seq<Ticket>, ticketId: string)
    ensures DeleteTicket(DeleteTicket(tickets, ticketId), ticketId) == DeleteTicket(tickets, ticketId)
  {
    FilterIdempotent(tickets, TicketIdDiffers(ticketId));
  }

  /** The records a delete keeps stay in their original order. */
  lemma DeleteByEmailKeepsOrder(a: seq<Account>, b: seq<Account>, email: string)
    ensures DeleteByEmail(a + b, email) == DeleteByEmail(a, email) + DeleteByEmail(b, email)
  {
    FilterConcat(a, b, EmailDiffers(email));
  }

  /** The tickets a delete keeps stay in their original order. */
  lemma DeleteTicketKeepsOrder(a: seq<Ticket>, b: seq<Ticket>, ticketId: string)
    ensures DeleteTicket(a + b, ticketId) == DeleteTicket(a, ticketId) + DeleteTicket(b, ticketId)
  {
    FilterConcat(a, b, TicketIdDiffers(ticketId));
  }

  /** An agent's tickets are listed in the order they are stored. */
  lemma AgentTicketsKeepsOrder(a: seq<Ticket>, b: seq<Ticket>, agentId: string)
    ensures AgentTickets(a + b, agentId) == AgentTickets(a, agentId) + AgentTickets(b, agentId)
  {
    FilterConcat(a, b, IsAssignedTo(agentId));
  }

  /** Deleting keeps emails unique. */
  lemma DeletePreservesUniqueEmails(rs: seq<Account>, email: string)
    requires UniqueEmails(rs)
    ensures UniqueEmails(DeleteByEmail(rs, email))
  {
    FilterPreservesUniqueEmails(rs, EmailDiffers(email));
  }

  /** A delete keeps a store's rows of one kind: it only removes rows. */
  lemma DeleteKeepsRowKind(rs: seq<Account>, email: string)
    ensures CustomerRows(rs) ==> CustomerRows(DeleteByEmail(rs, email))
    ensures AgentRows(rs) ==> AgentRows(DeleteByEmail(rs, email))
  {
    var r := DeleteByEmail(rs, email);
    forall i | 0 <= i < |r| ensures exists j :: 0 <= j < |rs| && rs[j] == r[i] {
      assert r[i] in multiset(r);
      assert r[i] in multiset(rs);
    }
  }

  lemma {:induction false} FilterPreservesUniqueEmails(rs: seq<Account>, keep: Account -> bool)
    requires UniqueEmails(rs)
    ensures UniqueEmails(Filter(rs, keep))
    decreases |rs|
  {
    if rs != [] {
      var tail := Filter(rs[1..], keep);
      FilterPreservesUniqueEmails(rs[1..], keep);
      FilterCounts(rs[1..], keep);
      forall k | 0 <= k < |tail| ensures tail[k].email != rs[0].email {
        assert tail[k] in multiset(tail);
        var m :| 0 <= m < |rs[1..]| && rs[1..][m] == tail[k];
        assert rs[m + 1] == tail[k];
      }
      var head := if keep(rs[0]) then [rs[0]] else [];
      assert Filter(rs, keep) == head + tail;
    }
  }
}
