# Ticket-support backend: the record stores, in Dafny

This project models the record handling of a small FastAPI ticket-support backend
(`backend/main.py`). The backend keeps three stores: customers, agents and tickets. Each
store is a JSON file holding an ordered list of flat records. Every endpoint loads one list,
does one list operation (scan, append or filter), and may write the list back.

The model has two layers:

- **Services** states each endpoint as a function of the list it loads. Signup gives the new
  list or an error. Login gives a session or an error. Ticket creation gives the new list. The
  per-agent ticket query and the three deletes are filters. The lemmas relate operations to
  each other. Examples: signup then login, signup then delete, two signups in a row, and create
  after delete.
- **Backend.Database** is a class whose three fields are the three store files. Each endpoint
  is a method. Signup and login keep the source's `for` loop with early exit (`raise` or
  `return`). Each method is proved against the Services function for its endpoint. A method
  that answers with an error leaves its store unchanged. A method changes only the store its
  endpoint writes (field-level `modifies`).

Supporting modules:

- `Text` holds the parts of Python the id schemes rely on: `int()` on a digit string,
  `str.split("-")`, `f"{n}"` and `03d` zero padding. It proves the round trips
  `int(str(n)) == n` and `"-".join(s.split("-")) == s`.
- `Ids` holds the id formats and generators. A customer or agent id is `"<PREFIX>-<n>"`. The
  generator starts from the seed `CUST-1001` / `AGT-2001` and otherwise takes the suffix of the
  *last* record's id plus one. A ticket id is `"TICK"` followed by the store length plus one,
  zero-padded to three digits.
- `Lists` holds the list comprehension `[x for x in s if keep(x)]` as `Filter`, with its laws.

The id schemes are reproduced as written, including their weakness under deletion. Two lemmas
show it. `DeletedCustomerIdIsReissued` shows that deleting the newest customer makes the next
signup reuse that customer's id. `DeleteThenCreateDuplicatesTicketId` shows that deleting a
ticket other than the last one makes the next ticket reuse an id that is still in the store.

Choices that follow the code as written:
- a duplicate email is answered with status 400 (not a 409 Conflict);
- the generator's duplicate ids after deletion are kept, not corrected;
- a last id that cannot be split or parsed makes the handler raise, which FastAPI answers with
  500 (`HttpError.ServerError`).

## Model

| member | source | states |
|---|---|---|
| Text.ParseInt | backend/main.py:43 | `int(s)` raises exactly when `s` is empty or holds a non-digit. Its value on digit strings is pinned by `ParseDecimal` and `LeadingZeros`. |
| Text.DecimalString | backend/main.py:44 | `str(n)` is a non-empty digit string. Its first digit is '0' exactly when n is 0, and it has one character exactly when n < 10. |
| Text.ParseDecimal | backend/main.py:43-44 | `int(str(n)) == n` for every n ≥ 0. |
| Text.DecimalStringInjective | backend/main.py:44 | Distinct numbers print as distinct strings. |
| Text.ZeroPad | backend/main.py:166 | `03d` padding has length max(3, len). `ZeroPadShape` shows it is zeros followed by the unpadded digits. |
| Text.ZeroPadShape | backend/main.py:166 | `03d` padding has length max(3, len) and is zeros followed by the unpadded digits. |
| Text.LeadingZeros | backend/main.py:166 | Leading zeros do not change what `int()` returns, including the failure case. |
| Text.Split | backend/main.py:43 | `str.split(sep)` returns at least one field, and no field contains the separator. |
| Text.JoinSplit | backend/main.py:43 | Joining the fields of `s.split(sep)` with `sep` gives back `s`. |
| Text.SplitJoin | backend/main.py:43 | Splitting a join of separator-free fields gives back the fields. |
| Text.SplitAtFirstSeparator | backend/main.py:43 | The first field of `a + sep + b` is `a`; the remaining fields are `b.split(sep)`. |
| Ids.FormatId | backend/main.py:44 | `f"{prefix}-{n}"` is the prefix, one '-', then a non-empty run of digits. `IdRoundTrip` shows the digits parse back to n. |
| Ids.LastId | backend/main.py:42 | `customers[-1]["id"]`: the id of the last record in list order. The generators' contracts are stated through it. |
| Ids.IdSuffix | backend/main.py:43 | `int(last_id.split("-")[1])` fails when the id has no '-' (the index raises) or the second field is not a number. `IdRoundTrip` shows it inverts `FormatId`. |
| Ids.IdRoundTrip | backend/main.py:42-44 | For a prefix without '-', `int(f"{prefix}-{n}".split("-")[1]) == n`. |
| Ids.FormatIdInjective | backend/main.py:44 | Two formatted ids with one prefix are equal iff their numbers are equal. |
| Ids.CustomerSeed | backend/main.py:41 | The seed `CUST-1001` is the formatted form of 1001, and its suffix parses to 1001. |
| Ids.AgentSeed | backend/main.py:48 | The seed `AGT-2001` is the formatted form of 2001, and its suffix parses to 2001. |
| Ids.GenerateCustomerId | backend/main.py:39-44 | Empty store: `CUST-1001`. Otherwise the generator fails (500) exactly when the last id's suffix does not parse. On success the result has the shape `CUST-<n>` and its suffix parses to the last suffix + 1 (or to 1001 on an empty store). |
| Ids.GenerateAgentId | backend/main.py:46-51 | The same as the customer generator, with `AGT-2001` and 2001. |
| Ids.TicketId | backend/main.py:166 | `f"TICK{n:03d}"` is at least 7 characters long. `TicketIdRoundTrip` and `TicketIdInjective` give its prefix, its parse-back and its injectivity. |
| Ids.TicketIdRoundTrip | backend/main.py:166 | `TICK{n:03d}` starts with "TICK" and has at least 7 characters (exactly 7 below 1000). The characters after "TICK" parse back to n. |
| Ids.TicketIdInjective | backend/main.py:166 | Distinct ticket numbers give distinct ticket ids. |
| Lists.Filter | backend/main.py:188 | The comprehension result is no longer than its input, and every element it keeps satisfies the test. |
| Lists.FilterCounts | backend/main.py:203 | Each value that passes the test keeps all its occurrences. Every other value has none. |
| Lists.FilterConcat | backend/main.py:188 | Filtering `a + b` gives `filter(a) + filter(b)`, so kept elements stay in their original order. |
| Lists.FilterKeepsAll | backend/main.py:203 | When every element passes, the comprehension returns the list unchanged. |
| Lists.FilterDropsOnly | backend/main.py:217 | When exactly one element fails the test, the comprehension removes just that element and keeps the rest in order. |
| Lists.FilterIdempotent | backend/main.py:217 | Filtering twice by one test equals filtering once. |
| Services.SignupCustomer | backend/main.py:88-103 | A duplicate email gives exactly error 400. A bad last id on a new email gives exactly error 500. On success, one record is appended at the end with the generated id and the given fields, earlier records are unchanged, unique emails stay unique, and a store of customer rows stays one. |
| Services.SignupAgent | backend/main.py:115-129 | The same as customer signup, for agent records (a store of agent rows stays one). |
| Services.FirstMatch | backend/main.py:138-139 | Gives the position of the first record whose email and password both match, or none exactly when no record matches. |
| Services.Login | backend/main.py:138-142 | Fails with 401 iff no record matches both email and password. Otherwise it returns the given role and the id of the first matching record in list order. |
| Services.CreateTicket | backend/main.py:166-179 | Appends one ticket and leaves earlier tickets unchanged. The new ticket has id `TICK{len+1:03d}`, status "Open" and assignee "Not Assigned". Its title, description, priority and creator are copied from the request, and its date is the given date. |
| Services.AgentTickets | backend/main.py:186-189 | Every returned ticket is assigned to the agent. Each ticket assigned to the agent appears as often as in the store, and no other ticket appears. |
| Services.DeleteByEmail | backend/main.py:203 | No record with that email remains. Every other record keeps its multiplicity. An absent email leaves the list unchanged. |
| Services.DeleteTicket | backend/main.py:217 | No ticket with that id remains. Every other ticket keeps its multiplicity. An absent id leaves the list unchanged. |
| Services.SignupCustomerKeepsSequentialIds | backend/main.py:39-44 | On a store with ids CUST-1001, CUST-1002, … in order, signup never fails with 500 and keeps the ids consecutive. |
| Services.SignupAgentKeepsSequentialIds | backend/main.py:46-51 | The same for agents, starting at AGT-2001. |
| Services.NextCustomerIdOnSequentialStore | backend/main.py:39-44 | On a store with ids CUST-1001 … CUST-(1000+n), the generator gives CUST-(1001+n). |
| Services.NextAgentIdOnSequentialStore | backend/main.py:46-51 | On a store with ids AGT-2001 … AGT-(2000+n), the generator gives AGT-(2001+n). |
| Services.SequentialIdsDistinct | backend/main.py:42-44 | Consecutive ids are pairwise distinct. |
| Services.ConsecutiveCustomerIds | backend/main.py:92 | After a successful customer signup, the next signup can fail only with 400. Its id suffix is one greater than the previous one. |
| Services.ConsecutiveAgentIds | backend/main.py:119 | The same for agents. |
| Services.FirstTwoCustomerIds | backend/main.py:39-44 | On an empty store, two signups with different emails get `CUST-1001` and then `CUST-1002`. |
| Services.LoginAfterSignupCustomer | backend/main.py:134-142 | Right after a customer signs up, logging in with the same email and password returns the new id with role "customer". |
| Services.LoginAfterSignupAgent | backend/main.py:145-153 | Right after an agent signs up, logging in returns the new id with role "agent". |
| Services.DeleteUndoesSignupCustomer | backend/main.py:200-205 | Deleting the email that just signed up as a customer restores the previous customer list. |
| Services.DeleteUndoesSignupAgent | backend/main.py:207-212 | Deleting the email that just signed up as an agent restores the previous agent list. |
| Services.DeletedCustomerIdIsReissued | backend/main.py:39-44 | After the newest customer is deleted, the generator issues that customer's id again. |
| Services.DeletedAgentIdIsReissued | backend/main.py:46-51 | After the newest agent is deleted, the generator issues that agent's id again. |
| Services.CreateTicketKeepsNumbering | backend/main.py:166 | Ticket creation keeps the ids TICK001, TICK002, … in order, and these ids are pairwise distinct. |
| Services.NumberedTicketsUnique | backend/main.py:166 | Tickets numbered TICK001, TICK002, … have pairwise distinct ids. |
| Services.DeleteNumberedTicket | backend/main.py:217 | On a numbered store, deleting the id of the ticket at any position k removes exactly that ticket and keeps the others in order. |
| Services.DeleteUniqueTicket | backend/main.py:217 | The same on any store whose ticket ids are distinct. |
| Services.DeleteThenCreateDuplicatesTicketId | backend/main.py:166 | Take a numbered store, delete any ticket but the last, then create one. The new ticket gets the id the last ticket already has, so two tickets share an id. |
| Services.NewTicketIsUnassigned | backend/main.py:173-175 | A new ticket appears at the end of the "Not Assigned" query. Every other agent's ticket list is unchanged. |
| Services.DeleteByEmailIdempotent | backend/main.py:203 | Deleting an email twice gives the same list as deleting it once. |
| Services.DeleteTicketIdempotent | backend/main.py:217 | Deleting a ticket id twice gives the same list as deleting it once. |
| Services.DeleteByEmailKeepsOrder | backend/main.py:203 | Deleting from `a + b` equals deleting from each part, so the remaining records keep their order. |
| Services.DeleteTicketKeepsOrder | backend/main.py:217 | Deleting a ticket id from `a + b` equals deleting it from each part, so the remaining tickets keep their order. |
| Services.AgentTicketsKeepsOrder | backend/main.py:188 | An agent's tickets from `a + b` are those from `a` followed by those from `b`: the query lists them in stored order. |
| Services.DeleteKeepsRowKind | backend/main.py:203 | A delete keeps a store of customer rows (or of agent rows) to that kind. |
| Services.DeletePreservesUniqueEmails | backend/main.py:203 | Deleting keeps emails unique. |
| Backend.Database.constructor | backend/main.py:27-29 | Store files that do not exist yet read as three empty lists. |
| Backend.Database.SignupCustomer | backend/main.py:84-105 | The scan-then-append endpoint matches `Services.SignupCustomer`. On error it answers 400 or 500 and leaves the store unchanged. It preserves unique emails and customer-only rows, and writes only the customer store. |
| Backend.Database.SignupAgent | backend/main.py:111-131 | The same for the agent store (agent-only rows). |
| Backend.Database.LoginCustomer | backend/main.py:134-142 | The loop with early return gives the same answer as `Services.Login` with role "customer", and 401 when no record matches. It changes no store. |
| Backend.Database.LoginAgent | backend/main.py:145-153 | The loop with early return gives the same answer as `Services.Login` with role "agent", and 401 when no record matches. It changes no store. |
| Backend.Database.CreateTicket | backend/main.py:162-182 | The ticket store becomes `Services.CreateTicket` of the old one. Numbered stores stay numbered with unique ids. Only the ticket store is written. |
| Backend.Database.GetAgentTickets | backend/main.py:185-189 | Answers `Services.AgentTickets` on the current ticket store and changes nothing. |
| Backend.Database.DeleteCustomer | backend/main.py:200-205 | The customer store becomes `DeleteByEmail` of the old one, even when the email is absent. Unique emails and customer-only rows are preserved. |
| Backend.Database.DeleteAgent | backend/main.py:207-212 | The agent store becomes `DeleteByEmail` of the old one, even when the email is absent. Unique emails and agent-only rows are preserved. |
| Backend.Database.DeleteTicket | backend/main.py:214-219 | The ticket store becomes `Services.DeleteTicket` of the old one, even when the id is absent. |

## Left out

- File I/O and JSON (`load_data`, `save_data`, backend/main.py:27-36). Each store is the current list held in a `Database` field. A missing file is the empty list.
- Record shape errors. Every stored record is taken to have all its keys, with string values. A record lacking `id`, `email` or `password`, or holding a non-string `id`, would raise `KeyError` or `AttributeError`; that is not modelled.
- Text.ParseInt: models Python's `int()` on ASCII digit strings only. `int()` also accepts surrounding whitespace, a leading '+', '_' between digits and non-ASCII decimal digits. Ids made by the generators contain none of these.
- `delete_ticket` compares `str(t["ticket_id"])` with `str(ticket_id)`. Ticket ids are always strings here, so `str()` is the identity and the comparison is plain string equality.
- FastAPI routing, the Pydantic request models and `EmailStr` validation or normalisation, CORS, and the hard-coded file paths (backend/main.py:2-22, 56-77). The model does not check email formats.
- Response message texts (e.g. "Customer registered successfully") and `HTTPException` detail strings. Only the status code is modelled, together with the `user_id` and `role` of a login.
- The ticket date from `datetime.now().strftime("%d-%m-%Y")` (backend/main.py:176). It is the caller-supplied `date` parameter.
- Concurrent requests and lost updates between them. The code has no locking, and the model runs one endpoint at a time.
- The identity reads `get_all_tickets`, `get_customers` and `get_agents` (backend/main.py:156-159, 192-198). They return a store unchanged.
