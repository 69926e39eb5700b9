/**
 * Identifier schemes: customers and agents get "<PREFIX>-<n>" where n is one more than the
 * suffix of the last stored id; tickets get "TICK" followed by the store's length plus one,
 * zero-padded to three digits.
 */
module Ids {
  import opened Outcomes
  import opened Text
  import opened Records

  /** `f"{prefix}-{n}"`. */
  function FormatId(prefix: string, n: nat): (id: string)
    ensures |id| > |prefix| + 1 && id[..|prefix|] == prefix && id[|prefix|] == '-'
    ensures AllDigits(id[|prefix| + 1..])
  {
    var digits := DecimalString(n);
    assert (prefix + "-" + digits)[|prefix| + 1..] == digits;
    prefix + "-" + digits
  }

  /** `int(id.split("-")[1])`; `None` when the index is out of range or the text is not a number. */
  function IdSuffix(id: string): (r: Option<nat>)
    ensures r.Some? ==> '-' in id
  {
    var parts := Split(id, '-');
    if |parts| < 2 then None
    else
      SplitHasSeparator(id, '-');
      ParseInt(parts[1])
  }

  /** Parsing the suffix of a formatted id gives back the number it was formatted from. */
  lemma IdRoundTrip(prefix: string, n: nat)
    requires '-' !in prefix
    ensures IdSuffix(FormatId(prefix, n)) == Some(n)
  {
    var digits := DecimalString(n);
    assert '-' !in digits;
    assert FormatId(prefix, n) == prefix + ['-'] + digits;
    SplitAtFirstSeparator(prefix, '-', digits);
    SplitWithoutSeparator(digits, '-');
    ParseDecimal(n);
  }

  /** Two formatted ids with the same prefix are equal only for equal numbers. */
  lemma FormatIdInjective(prefix: string, m: nat, n: nat)
    requires '-' !in prefix
    ensures FormatId(prefix, m) == FormatId(prefix, n) <==> m == n
  {
    IdRoundTrip(prefix, m);
    IdRoundTrip(prefix, n);
  }

  function LastId(rs: seq<Account>): string
    requires rs != []
  {
    rs[|rs| - 1].id
  }

  /** The customer seed id is the formatted form of 1001. */
  lemma CustomerSeed()
    ensures "CUST-1001" == FormatId("CUST", 1001) && IdSuffix("CUST-1001") == Some(1001)
  {
    assert DecimalString(1) == "1";
    assert DecimalString(10) == "10";
    assert DecimalString(100) == "100";
    assert DecimalString(1001) == "1001";
    IdRoundTrip("CUST", 1001);
  }

  /** The agent seed id is the formatted form of 2001. */
  lemma AgentSeed()
    ensures "AGT-2001" == FormatId("AGT", 2001) && IdSuffix("AGT-2001") == Some(2001)
  {
    assert DecimalString(2) == "2";
    assert DecimalString(20) == "20";
    assert DecimalString(200) == "200";
    assert DecimalString(2001) == "2001";
    IdRoundTrip("AGT", 2001);
  }

  /** The customer id generator: the seed on an empty store, else the last suffix plus one. */
  function GenerateCustomerId(customers: seq<Account>): (r: Result<string, HttpError>)
    ensures customers == [] ==> r == Ok("CUST-1001")
    ensures r.Err? <==> customers != [] && IdSuffix(LastId(customers)).None?
    ensures r.Err? ==> r.error == ServerError
    ensures r.Ok? ==> IdSuffix(r.value) == Some(if customers == [] then 1001 else IdSuffix(LastId(customers)).value + 1)
    ensures r.Ok? ==> r.value == FormatId("CUST", IdSuffix(r.value).value)
  {
    if customers == [] then
      CustomerSeed();
      Ok("CUST-1001")
    else
      match IdSuffix(LastId(customers))
      case None => Err(ServerError)
      case Some(n) =>
        IdRoundTrip("CUST", n + 1);
        Ok(FormatId("CUST", n + 1))
  }

  /** The agent id generator: the seed on an empty store, else the last suffix plus one. */
  function GenerateAgentId(agents: seq<Account>): (r: Result<string, HttpError>)
    ensures agents == [] ==> r == Ok("AGT-2001")
    ensures r.Err? <==> agents != [] && IdSuffix(LastId(agents)).None?
    ensures r.Err? ==> r.error == ServerError
    ensures r.Ok? ==> IdSuffix(r.value) == Some(if agents == [] then 2001 else IdSuffix(LastId(agents)).value + 1)
    ensures r.Ok? ==> r.value == FormatId("AGT", IdSuffix(r.value).value)
  {
    if agents == [] then
      AgentSeed();
      Ok("AGT-2001")
    else
      match IdSuffix(LastId(agents))
      case None => Err(ServerError)
      case Some(n) =>
        IdRoundTrip("AGT", n + 1);
        Ok(FormatId("AGT", n + 1))
  }

  /** `f"TICK{n:03d}"`. */
  function TicketId(n: nat): (id: string)
    ensures |id| >= 7
  {
    "TICK" + ZeroPad(DecimalString(n), 3)
  }

  /** A ticket id is "TICK", then at least three digits that parse back to its number. */
  lemma TicketIdRoundTrip(n: nat)
    ensures |TicketId(n)| >= 7 && TicketId(n)[..4] == "TICK"
    ensures ParseInt(TicketId(n)[4..]) == Some(n)
    ensures n < 1000 ==> |TicketId(n)| == 7
  {
    var digits := DecimalString(n);
    var padded := ZeroPad(digits, 3);
    assert TicketId(n)[..4] == "TICK" && TicketId(n)[4..] == padded;
    assert ParseInt(padded) == Some(n) by {
      ZeroPadShape(digits, 3);
      LeadingZeros(|padded| - |digits|, digits);
      ParseDecimal(n);
    }
    if n < 1000 {
      DecimalStringShort(n);
    }
  }

  lemma {:induction false} DecimalStringShort(n: nat)
    requires n < 1000
    ensures |DecimalString(n)| <= 3
  {
    if n >= 10 {
      DecimalStringShort(n / 10);
    }
  }

  /** Distinct ticket numbers give distinct ticket ids. */
  lemma TicketIdInjective(m: nat, n: nat)
    ensures TicketId(m) == TicketId(n) <==> m == n
  {
    TicketIdRoundTrip(m);
    TicketIdRoundTrip(n);
  }
}
