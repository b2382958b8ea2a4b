/**
 Duplicate customers: an advisory check over four fields, and the tax-id check enforced at the
 point of persistence. The organization's rows are given in the order the database returns them.
 */
module CustomerDuplicates {
  import opened Wrappers
  import opened CustomerKeys
  import opened Text
  import opened UruguayRut

  datatype Customer = Customer(id: string, organizationId: string, name: string, email: string, phone: string, taxId: string)

  datatype Reason = TaxIdMatch | EmailMatch | PhoneMatch | NameMatch

  datatype Severity = NoMatch | Suggestion | Warning | Blocking

  datatype DuplicateMatch = DuplicateMatch(customer: Customer, reasons: seq<Reason>)

  datatype CheckResult = CheckResult(severity: Severity, matches: seq<DuplicateMatch>)

  function SeverityOf(reason: Reason): Severity {
    match reason
    case TaxIdMatch => Blocking
    case EmailMatch => Warning
    case PhoneMatch => Warning
    case NameMatch => Suggestion
  }

  function Rank(s: Severity): nat {
    match s
    case NoMatch => 0
    case Suggestion => 1
    case Warning => 2
    case Blocking => 3
  }

  function Worse(a: Severity, b: Severity): Severity {
    if Rank(b) > Rank(a) then b else a
  }

  // ---------------------------------------------------------------- the advisory check

  /** The normalised fields to compare; an empty field is not checked. */
  datatype Query = Query(name: string, email: string, phone: string, taxId: string)

  function Normalized(name: string, email: string, phone: string, taxId: string): Query {
    Query(if name != "" then NormalizeCustomerName(name) else "",
          if email != "" then NormalizeCustomerEmail(email) else "",
          if phone != "" then NormalizeCustomerPhone(phone) else "",
          if taxId != "" then NormalizeTaxId(taxId) else "")
  }

  /** `WHERE organization_id = :org`, and `AND id != :exclude` when an id is given. */
  predicate Selected(row: Customer, organizationId: string, exclude: string) {
    row.organizationId == organizationId && (exclude != "" ==> row.id != exclude)
  }

  predicate SameTaxId(row: Customer, key: string) {
    key != "" && row.taxId != "" && NormalizeTaxId(row.taxId) == key
  }

  predicate SameEmail(row: Customer, key: string) {
    key != "" && row.email != "" && NormalizeCustomerEmail(row.email) == key
  }

  predicate SamePhone(row: Customer, key: string) {
    key != "" && row.phone != "" && NormalizeCustomerPhone(row.phone) == key
  }

  predicate SameName(row: Customer, key: string) {
    key != "" && row.name != "" && NormalizeCustomerName(row.name) == key
  }

  /** The reasons that apply, most confident first. */
  function ReasonList(taxId: bool, email: bool, phone: bool, name: bool): (reasons: seq<Reason>)
    ensures TaxIdMatch in reasons <==> taxId
    ensures EmailMatch in reasons <==> email
    ensures PhoneMatch in reasons <==> phone
    ensures NameMatch in reasons <==> name
  {
    (if taxId then [TaxIdMatch] else []) + (if email then [EmailMatch] else [])
    + (if phone then [PhoneMatch] else []) + (if name then [NameMatch] else [])
  }

  function Reasons(row: Customer, q: Query): seq<Reason> {
    ReasonList(SameTaxId(row, q.taxId), SameEmail(row, q.email), SamePhone(row, q.phone), SameName(row, q.name))
  }

  /** The rows that share something with the query, each with what it shares. */
  function MatchesIn(rows: seq<Customer>, organizationId: string, exclude: string, q: Query): seq<DuplicateMatch> {
    if rows == [] then []
    else
      var row := rows[|rows| - 1];
      MatchesIn(rows[..|rows| - 1], organizationId, exclude, q) + MatchOf(row, organizationId, exclude, q)
  }

  function MatchOf(row: Customer, organizationId: string, exclude: string, q: Query): seq<DuplicateMatch> {
    if Selected(row, organizationId, exclude) && Reasons(row, q) != [] then [DuplicateMatch(row, Reasons(row, q))] else []
  }

  lemma {:induction false} MatchesStep(rows: seq<Customer>, n: nat, organizationId: string, exclude: string, q: Query)
    requires n < |rows|
    ensures MatchesIn(rows[..n + 1], organizationId, exclude, q)
         == MatchesIn(rows[..n], organizationId, exclude, q) + MatchOf(rows[n], organizationId, exclude, q)
  {
    assert rows[..n + 1][..n] == rows[..n];
  }

  function WorstReason(reasons: seq<Reason>): Severity {
    if reasons == [] then NoMatch
    else Worse(WorstReason(reasons[..|reasons| - 1]), SeverityOf(reasons[|reasons| - 1]))
  }

  function WorstMatch(matches: seq<DuplicateMatch>): Severity {
    if matches == [] then NoMatch
    else Worse(WorstMatch(matches[..|matches| - 1]), WorstReason(matches[|matches| - 1].reasons))
  }

  method CheckCustomerDuplicates(rows: seq<Customer>, organizationId: string,
                                 name: string, email: string, phone: string, taxId: string, exclude: string)
    returns (result: CheckResult)
    ensures var found := MatchesIn(rows, organizationId, exclude, Normalized(name, email, phone, taxId));
            result == CheckResult(WorstMatch(found), found)
  {
    var q := Normalized(name, email, phone, taxId);
    if q.name == "" && q.email == "" && q.phone == "" && q.taxId == "" {
      NothingToCheck(rows, organizationId, exclude, q);
      return CheckResult(NoMatch, []);
    }
    var matches: seq<DuplicateMatch> := [];
    for n := 0 to |rows|
      invariant matches == MatchesIn(rows[..n], organizationId, exclude, q)
    {
      MatchesStep(rows, n, organizationId, exclude, q);
      var found := MatchRow(rows[n], organizationId, exclude, q);
      matches := matches + found;
    }
    assert rows[..|rows|] == rows;
    var severity := OverallSeverity(matches);
    result := CheckResult(severity, matches);
  }

  method MatchRow(row: Customer, organizationId: string, exclude: string, q: Query) returns (found: seq<DuplicateMatch>)
    ensures found == MatchOf(row, organizationId, exclude, q)
  {
    if !Selected(row, organizationId, exclude) {
      return [];
    }
    var reasons := CollectReasons(SameTaxId(row, q.taxId), SameEmail(row, q.email),
                                  SamePhone(row, q.phone), SameName(row, q.name));
    assert reasons == Reasons(row, q);
    found := if reasons != [] then [DuplicateMatch(row, reasons)] else [];
  }

  method CollectReasons(taxId: bool, email: bool, phone: bool, name: bool) returns (reasons: seq<Reason>)
    ensures reasons == ReasonList(taxId, email, phone, name)
  {
    reasons := [];
    if taxId {
      reasons := reasons + [TaxIdMatch];
    }
    if email {
      reasons := reasons + [EmailMatch];
    }
    if phone {
      reasons := reasons + [PhoneMatch];
    }
    if name {
      reasons := reasons + [NameMatch];
    }
  }

  method OverallSeverity(matches: seq<DuplicateMatch>) returns (severity: Severity)
    ensures severity == WorstMatch(matches)
  {
    severity := NoMatch;
    for n := 0 to |matches|
      invariant severity == WorstMatch(matches[..n])
    {
      assert matches[..n + 1][..n] == matches[..n];
      severity := Worse(severity, WorstReason(matches[n].reasons));
    }
    assert matches[..|matches|] == matches;
  }

  lemma {:induction false} NothingToCheck(rows: seq<Customer>, organizationId: string, exclude: string, q: Query)
    requires q == Query("", "", "", "")
    ensures MatchesIn(rows, organizationId, exclude, q) == []
  {
    if rows != [] {
      NothingToCheck(rows[..|rows| - 1], organizationId, exclude, q);
    }
  }

  // ---------------------------------------------------------------- the enforced check

  /** A row that the tax-id check must report. */
  predicate Collides(row: Customer, organizationId: string, key: string, exclude: string) {
    Selected(row, organizationId, exclude) && SameTaxId(row, key)
  }

  function TaxIdKey(taxId: string): string {
    if taxId != "" then NormalizeTaxId(taxId) else ""
  }

  function FirstCollision(rows: seq<Customer>, organizationId: string, key: string, exclude: string): (r: Option<Customer>)
    ensures r.Some? ==> r.value in rows && Collides(r.value, organizationId, key, exclude)
    ensures r.None? ==> forall i :: 0 <= i < |rows| ==> !Collides(rows[i], organizationId, key, exclude)
  {
    if rows == [] then None
    else if Collides(rows[0], organizationId, key, exclude) then Some(rows[0])
    else FirstCollision(rows[1..], organizationId, key, exclude)
  }

  method FindTaxIdDuplicate(rows: seq<Customer>, organizationId: string, taxId: string, exclude: string)
    returns (duplicate: Option<Customer>)
    ensures duplicate == FirstCollision(rows, organizationId, TaxIdKey(taxId), exclude)
  {
    var key := TaxIdKey(taxId);
    if key == "" {
      return None;
    }
    for n := 0 to |rows|
      invariant FirstCollision(rows, organizationId, key, exclude) == FirstCollision(rows[n..], organizationId, key, exclude)
    {
      assert rows[n..][1..] == rows[n + 1..];
      if rows[n].organizationId == organizationId && rows[n].taxId != "" && (exclude == "" || rows[n].id != exclude)
         && NormalizeTaxId(rows[n].taxId) == key {
        return Some(rows[n]);
      }
    }
    return None;
  }

  // ---------------------------------------------------------------- what the advisory check reports

  predicate SharesSomething(row: Customer, q: Query) {
    SameTaxId(row, q.taxId) || SameEmail(row, q.email) || SamePhone(row, q.phone) || SameName(row, q.name)
  }

  /** What a report must say about its own customer. */
  predicate IsReport(m: DuplicateMatch, organizationId: string, exclude: string, q: Query) {
    Selected(m.customer, organizationId, exclude) && SharesSomething(m.customer, q) && m.reasons == Reasons(m.customer, q)
  }

  /** A row is reported exactly when it is selected and shares a field, and then with all it shares. */
  lemma {:induction false} ReportedIff(rows: seq<Customer>, organizationId: string, exclude: string, q: Query, m: DuplicateMatch)
    ensures m in MatchesIn(rows, organizationId, exclude, q) <==> m.customer in rows && IsReport(m, organizationId, exclude, q)
  {
    if rows != [] {
      var last := |rows| - 1;
      ReportedIff(rows[..last], organizationId, exclude, q, m);
      MatchOfRow(rows[last], organizationId, exclude, q, m);
      OneMoreRow(MatchesIn(rows[..last], organizationId, exclude, q), MatchOf(rows[last], organizationId, exclude, q),
                 rows, m, IsReport(m, organizationId, exclude, q));
    }
  }

  lemma {:induction false} OneMoreRow(before: seq<DuplicateMatch>, more: seq<DuplicateMatch>, rows: seq<Customer>,
                                      m: DuplicateMatch, isReport: bool)
    requires rows != []
    requires m in before <==> m.customer in rows[..|rows| - 1] && isReport
    requires m in more <==> m.customer == rows[|rows| - 1] && isReport
    ensures m in before + more <==> m.customer in rows && isReport
  {
    assert rows == rows[..|rows| - 1] + [rows[|rows| - 1]];
  }

  lemma {:induction false} SomeReasonIff(taxId: bool, email: bool, phone: bool, name: bool)
    ensures ReasonList(taxId, email, phone, name) != [] <==> taxId || email || phone || name
  {
    var reasons := ReasonList(taxId, email, phone, name);
    assert reasons != [] ==> reasons[0] in reasons;
  }

  lemma {:induction false} MatchOfRow(row: Customer, organizationId: string, exclude: string, q: Query, m: DuplicateMatch)
    ensures m in MatchOf(row, organizationId, exclude, q) <==> m.customer == row && IsReport(m, organizationId, exclude, q)
  {
    SharedIff(row, q);
    OneReport(row, Reasons(row, q), Selected(row, organizationId, exclude), m);
  }

  lemma {:induction false} SharedIff(row: Customer, q: Query)
    ensures Reasons(row, q) != [] <==> SharesSomething(row, q)
  {
    SomeReasonIff(SameTaxId(row, q.taxId), SameEmail(row, q.email), SamePhone(row, q.phone), SameName(row, q.name));
  }

  lemma {:induction false} OneReport(row: Customer, reasons: seq<Reason>, selected: bool, m: DuplicateMatch)
    ensures m in (if selected && reasons != [] then [DuplicateMatch(row, reasons)] else [])
       <==> m.customer == row && selected && reasons != [] && m.reasons == reasons
  {
  }

  /** The severity of a list of reasons is that of its worst one. */
  lemma {:induction false} WorstReasonIff(reasons: seq<Reason>, level: nat)
    requires level >= 1
    ensures Rank(WorstReason(reasons)) >= level <==> exists r :: r in reasons && Rank(SeverityOf(r)) >= level
  {
    if reasons != [] {
      var last := |reasons| - 1;
      WorstReasonIff(reasons[..last], level);
      assert reasons == reasons[..last] + [reasons[last]];
    }
  }

  lemma {:induction false} WorstMatchIff(matches: seq<DuplicateMatch>, level: nat)
    requires level >= 1
    ensures Rank(WorstMatch(matches)) >= level <==> exists m :: m in matches && Rank(WorstReason(m.reasons)) >= level
  {
    if matches != [] {
      var last := |matches| - 1;
      WorstMatchIff(matches[..last], level);
      assert matches == matches[..last] + [matches[last]];
    }
  }

  /** A shared tax id blocks, a shared email or phone warns, a shared name only suggests. */
  predicate Reaches(row: Customer, q: Query, level: nat) {
    || (level <= 3 && SameTaxId(row, q.taxId))
    || (level <= 2 && (SameEmail(row, q.email) || SamePhone(row, q.phone)))
    || (level <= 1 && SameName(row, q.name))
  }

  lemma {:induction false} RowReaches(row: Customer, q: Query, level: nat)
    requires level >= 1
    ensures Rank(WorstReason(Reasons(row, q))) >= level <==> Reaches(row, q, level)
    ensures Reaches(row, q, level) ==> SharesSomething(row, q)
  {
    WorstReasonIff(Reasons(row, q), level);
    LevelsOfReasons(Reasons(row, q), level);
  }

  lemma {:induction false} LevelsOfReasons(reasons: seq<Reason>, level: nat)
    requires level >= 1
    ensures (exists r :: r in reasons && Rank(SeverityOf(r)) >= level)
       <==> || (level <= 3 && TaxIdMatch in reasons)
            || (level <= 2 && (EmailMatch in reasons || PhoneMatch in reasons))
            || (level <= 1 && NameMatch in reasons)
  {
    assert Rank(SeverityOf(TaxIdMatch)) == 3 && Rank(SeverityOf(EmailMatch)) == 2;
    assert Rank(SeverityOf(PhoneMatch)) == 2 && Rank(SeverityOf(NameMatch)) == 1;
  }

  /** The overall severity reaches a level exactly when some selected row does. */
  lemma {:induction false} SeverityIff(rows: seq<Customer>, organizationId: string, exclude: string, q: Query, level: nat)
    requires level >= 1
    ensures Rank(WorstMatch(MatchesIn(rows, organizationId, exclude, q))) >= level
       <==> exists row :: row in rows && Selected(row, organizationId, exclude) && Reaches(row, q, level)
  {
    var found := MatchesIn(rows, organizationId, exclude, q);
    WorstMatchIff(found, level);
    if m :| m in found && Rank(WorstReason(m.reasons)) >= level {
      ReportedIff(rows, organizationId, exclude, q, m);
      RowReaches(m.customer, q, level);
    }
    if row :| row in rows && Selected(row, organizationId, exclude) && Reaches(row, q, level) {
      RowReaches(row, q, level);
      ReportedIff(rows, organizationId, exclude, q, DuplicateMatch(row, Reasons(row, q)));
    }
  }

  // ---------------------------------------------------------------- the two finders agree

  lemma {:induction false} RowCollidesIff(row: Customer, organizationId: string, exclude: string, q: Query)
    ensures Collides(row, organizationId, q.taxId, exclude) <==> Selected(row, organizationId, exclude) && Reaches(row, q, 3)
  {
  }

  lemma {:induction false} FoundReachesThree(rows: seq<Customer>, organizationId: string, exclude: string, q: Query)
    requires FirstCollision(rows, organizationId, q.taxId, exclude).Some?
    ensures exists row :: row in rows && Selected(row, organizationId, exclude) && Reaches(row, q, 3)
  {
    var found := FirstCollision(rows, organizationId, q.taxId, exclude).value;
    RowCollidesIff(found, organizationId, exclude, q);
  }

  lemma {:induction false} ReachingThreeIsFound(rows: seq<Customer>, organizationId: string, exclude: string, q: Query, row: Customer)
    requires row in rows && Selected(row, organizationId, exclude) && Reaches(row, q, 3)
    ensures FirstCollision(rows, organizationId, q.taxId, exclude).Some?
  {
    RowCollidesIff(row, organizationId, exclude, q);
  }

  lemma {:induction false} FoundIff(rows: seq<Customer>, organizationId: string, exclude: string, q: Query)
    ensures FirstCollision(rows, organizationId, q.taxId, exclude).Some?
       <==> Rank(WorstMatch(MatchesIn(rows, organizationId, exclude, q))) >= 3
  {
    SeverityIff(rows, organizationId, exclude, q, 3);
    if FirstCollision(rows, organizationId, q.taxId, exclude).Some? {
      FoundReachesThree(rows, organizationId, exclude, q);
    }
    if row :| row in rows && Selected(row, organizationId, exclude) && Reaches(row, q, 3) {
      ReachingThreeIsFound(rows, organizationId, exclude, q, row);
    }
  }

  lemma {:induction false} BlockingIsRankThree(severity: Severity)
    ensures Rank(severity) >= 3 <==> severity == Blocking
  {
  }

  /**
   The enforced check finds a customer exactly when the advisory check, whatever else it is asked,
   reports `blocking` for the same tax id and exclusion.
   */
  lemma {:induction false} FindersAgree(rows: seq<Customer>, organizationId: string,
                                       name: string, email: string, phone: string, taxId: string, exclude: string)
    ensures FirstCollision(rows, organizationId, TaxIdKey(taxId), exclude).Some?
       <==> WorstMatch(MatchesIn(rows, organizationId, exclude, Normalized(name, email, phone, taxId))) == Blocking
  {
    var q := Normalized(name, email, phone, taxId);
    assert q.taxId == TaxIdKey(taxId);
    FoundIff(rows, organizationId, exclude, q);
    BlockingIsRankThree(WorstMatch(MatchesIn(rows, organizationId, exclude, q)));
  }

  // ---------------------------------------------------------------- the table under guarded writes

  /** The fields a write may set; None leaves a field alone. */
  datatype Changes = Changes(name: Option<string>, email: Option<string>, phone: Option<string>, taxId: Option<string>)

  /** A write, with the outcome of the plan-limit and RUT-format checks that come before the tax-id check. */
  datatype Write =
    | Create(customer: Customer, admitted: bool)
    | Update(at: nat, changes: Changes, admitted: bool)
    | Delete(at: nat)

  function Applied(customer: Customer, changes: Changes): Customer {
    customer.(name := if changes.name.Some? then changes.name.value else customer.name,
              email := if changes.email.Some? then changes.email.value else customer.email,
              phone := if changes.phone.Some? then changes.phone.value else customer.phone,
              taxId := if changes.taxId.Some? then changes.taxId.value else customer.taxId)
  }

  /** Whether a write is refused because the tax id it sets belongs to somebody else. */
  predicate Refused(rows: seq<Customer>, write: Write) {
    match write
    case Create(c, _) => FirstCollision(rows, c.organizationId, TaxIdKey(c.taxId), "").Some?
    case Update(at, changes, _) =>
      && at < |rows| && changes.taxId.Some? && changes.taxId.value != ""
      && FirstCollision(rows, rows[at].organizationId, TaxIdKey(changes.taxId.value), rows[at].id).Some?
    case Delete(_) => false
  }

  /** The rows after a write; one that is refused, not admitted, or names no row changes nothing. */
  function Written(rows: seq<Customer>, write: Write): seq<Customer> {
    if Refused(rows, write) then rows
    else match write
      case Create(c, admitted) => if admitted then rows + [c] else rows
      case Update(at, changes, admitted) =>
        // validation is only consulted when a non-empty tax id is set
        if at < |rows| && (admitted || changes.taxId.None? || changes.taxId.value == "")
        then rows[at := Applied(rows[at], changes)] else rows
      case Delete(at) => if at < |rows| then rows[..at] + rows[at + 1..] else rows
  }

  class CustomerTable {
    var rows: seq<Customer>

    constructor ()
      ensures rows == []
    {
      rows := [];
    }

    method CreateCustomer(c: Customer, admitted: bool) returns (duplicate: Option<Customer>)
      modifies this
      ensures rows == Written(old(rows), Create(c, admitted))
      ensures admitted ==> duplicate == FirstCollision(old(rows), c.organizationId, TaxIdKey(c.taxId), "")
    {
      if !admitted {
        return None;
      }
      duplicate := FindTaxIdDuplicate(rows, c.organizationId, c.taxId, "");
      if duplicate.None? {
        rows := rows + [c];
      }
    }

    method UpdateCustomer(at: nat, changes: Changes, admitted: bool) returns (duplicate: Option<Customer>)
      requires at < |rows|
      modifies this
      ensures rows == Written(old(rows), Update(at, changes, admitted))
      ensures duplicate.Some? <==> admitted && Refused(old(rows), Update(at, changes, admitted))
    {
      duplicate := None;
      if changes.taxId.Some? && changes.taxId.value != "" {
        if !admitted {
          return;
        }
        duplicate := FindTaxIdDuplicate(rows, rows[at].organizationId, changes.taxId.value, rows[at].id);
        if duplicate.Some? {
          return;
        }
      }
      rows := rows[at := Applied(rows[at], changes)];
    }

    method DeleteCustomer(at: nat)
      requires at < |rows|
      modifies this
      ensures rows == Written(old(rows), Delete(at))
    {
      rows := rows[..at] + rows[at + 1..];
    }
  }

  // ---------------------------------------------------------------- the checks, field by field

  /** Both texts are there and have the same key, which is not empty. */
  predicate SameKey(a: string, b: string, normalize: string -> string) {
    a != "" && b != "" && normalize(a) == normalize(b) && normalize(a) != ""
  }

  lemma {:induction false} FieldsCompared(row: Customer, name: string, email: string, phone: string, taxId: string)
    ensures var q := Normalized(name, email, phone, taxId);
            && (SameTaxId(row, q.taxId) <==> SameKey(row.taxId, taxId, NormalizeTaxId))
            && (SameEmail(row, q.email) <==> SameKey(row.email, email, NormalizeCustomerEmail))
            && (SamePhone(row, q.phone) <==> SameKey(row.phone, phone, NormalizeCustomerPhone))
            && (SameName(row, q.name) <==> SameKey(row.name, name, NormalizeCustomerName))
  {
  }

  /**
   What the advisory check reports: a row of the organization, unless it is the excluded one, that shares
   something, with every field it shares, tax id first, then email, phone and name.
   */
  lemma {:induction false} ReportsIff(rows: seq<Customer>, organizationId: string, name: string, email: string, phone: string,
                                      taxId: string, exclude: string, m: DuplicateMatch)
    ensures m in MatchesIn(rows, organizationId, exclude, Normalized(name, email, phone, taxId))
       <==> && m.customer in rows && m.customer.organizationId == organizationId
            && (exclude != "" ==> m.customer.id != exclude)
            && m.reasons != []
            && m.reasons == (if SameKey(m.customer.taxId, taxId, NormalizeTaxId) then [TaxIdMatch] else [])
                            + (if SameKey(m.customer.email, email, NormalizeCustomerEmail) then [EmailMatch] else [])
                            + (if SameKey(m.customer.phone, phone, NormalizeCustomerPhone) then [PhoneMatch] else [])
                            + (if SameKey(m.customer.name, name, NormalizeCustomerName) then [NameMatch] else [])
  {
    var q := Normalized(name, email, phone, taxId);
    ReportedIff(rows, organizationId, exclude, q, m);
    FieldsCompared(m.customer, name, email, phone, taxId);
    SharedIff(m.customer, q);
  }

  /** The row is one of the organization's, other than the excluded one. */
  predicate IsOther(row: Customer, organizationId: string, exclude: string) {
    row.organizationId == organizationId && (exclude == "" || row.id != exclude)
  }

  /** The row shares the tax id; or, from level 2 down, the email or phone; or, at level 1, the name. */
  predicate SharesAt(row: Customer, name: string, email: string, phone: string, taxId: string, level: nat) {
    || SameKey(row.taxId, taxId, NormalizeTaxId)
    || (level <= 2 && (SameKey(row.email, email, NormalizeCustomerEmail) || SameKey(row.phone, phone, NormalizeCustomerPhone)))
    || (level <= 1 && SameKey(row.name, name, NormalizeCustomerName))
  }

  ghost predicate SomeOtherSharesAt(rows: seq<Customer>, organizationId: string, exclude: string,
                                    name: string, email: string, phone: string, taxId: string, level: nat) {
    exists row :: row in rows && IsOther(row, organizationId, exclude) && SharesAt(row, name, email, phone, taxId, level)
  }

  lemma {:induction false} ReachesFields(row: Customer, organizationId: string, exclude: string,
                                         name: string, email: string, phone: string, taxId: string, level: nat)
    requires 1 <= level <= 3
    ensures Selected(row, organizationId, exclude) && Reaches(row, Normalized(name, email, phone, taxId), level)
       <==> IsOther(row, organizationId, exclude) && SharesAt(row, name, email, phone, taxId, level)
  {
    FieldsCompared(row, name, email, phone, taxId);
  }

  lemma {:induction false} ReachedIff(rows: seq<Customer>, organizationId: string, exclude: string,
                                      name: string, email: string, phone: string, taxId: string, level: nat)
    requires 1 <= level <= 3
    ensures Rank(WorstMatch(MatchesIn(rows, organizationId, exclude, Normalized(name, email, phone, taxId)))) >= level
       <==> SomeOtherSharesAt(rows, organizationId, exclude, name, email, phone, taxId, level)
  {
    var q := Normalized(name, email, phone, taxId);
    SeverityIff(rows, organizationId, exclude, q, level);
    if row :| row in rows && Selected(row, organizationId, exclude) && Reaches(row, q, level) {
      ReachesFields(row, organizationId, exclude, name, email, phone, taxId, level);
    }
    if row :| row in rows && IsOther(row, organizationId, exclude) && SharesAt(row, name, email, phone, taxId, level) {
      ReachesFields(row, organizationId, exclude, name, email, phone, taxId, level);
    }
  }

  /** The overall severity: a shared tax id blocks, a shared email or phone warns, a shared name suggests. */
  lemma {:induction false} SeverityIs(rows: seq<Customer>, organizationId: string, exclude: string,
                                      name: string, email: string, phone: string, taxId: string)
    ensures WorstMatch(MatchesIn(rows, organizationId, exclude, Normalized(name, email, phone, taxId)))
         == if SomeOtherSharesAt(rows, organizationId, exclude, name, email, phone, taxId, 3) then Blocking
            else if SomeOtherSharesAt(rows, organizationId, exclude, name, email, phone, taxId, 2) then Warning
            else if SomeOtherSharesAt(rows, organizationId, exclude, name, email, phone, taxId, 1) then Suggestion
            else NoMatch
  {
    ReachedIff(rows, organizationId, exclude, name, email, phone, taxId, 3);
    ReachedIff(rows, organizationId, exclude, name, email, phone, taxId, 2);
    ReachedIff(rows, organizationId, exclude, name, email, phone, taxId, 1);
    RanksDecide(WorstMatch(MatchesIn(rows, organizationId, exclude, Normalized(name, email, phone, taxId))));
  }

  lemma {:induction false} RanksDecide(severity: Severity)
    ensures severity == if Rank(severity) >= 3 then Blocking else if Rank(severity) >= 2 then Warning
                        else if Rank(severity) >= 1 then Suggestion else NoMatch
  {
  }

  lemma {:induction false} CollidesIff(row: Customer, organizationId: string, taxId: string, exclude: string)
    ensures Collides(row, organizationId, TaxIdKey(taxId), exclude)
       <==> IsOther(row, organizationId, exclude) && SameKey(row.taxId, taxId, NormalizeTaxId)
  {
  }

  lemma {:induction false} FirstCollisionFrom(rows: seq<Customer>, organizationId: string, key: string, exclude: string, from: nat)
    returns (n: nat)
    requires from <= |rows|
    ensures from <= n <= |rows|
    ensures forall i :: from <= i < n ==> !Collides(rows[i], organizationId, key, exclude)
    ensures n < |rows| ==> Collides(rows[n], organizationId, key, exclude)
    ensures FirstCollision(rows[from..], organizationId, key, exclude) == if n < |rows| then Some(rows[n]) else None
    decreases |rows| - from
  {
    if from == |rows| || Collides(rows[from], organizationId, key, exclude) {
      n := from;
    } else {
      n := FirstCollisionFrom(rows, organizationId, key, exclude, from + 1);
      assert rows[from..][0] == rows[from] && rows[from..][1..] == rows[from + 1..];
    }
  }

  /**
   What the enforced search finds: the first row of the organization with the same non-empty key, other
   than the excluded one.
   */
  lemma {:induction false} FindsFirst(rows: seq<Customer>, organizationId: string, taxId: string, exclude: string)
    returns (n: nat)
    ensures n <= |rows|
    ensures forall i :: 0 <= i < n ==> !(IsOther(rows[i], organizationId, exclude) && SameKey(rows[i].taxId, taxId, NormalizeTaxId))
    ensures n < |rows| ==> IsOther(rows[n], organizationId, exclude) && SameKey(rows[n].taxId, taxId, NormalizeTaxId)
    ensures FirstCollision(rows, organizationId, TaxIdKey(taxId), exclude) == if n < |rows| then Some(rows[n]) else None
  {
    n := FirstCollisionFrom(rows, organizationId, TaxIdKey(taxId), exclude, 0);
    assert rows[0..] == rows;
    forall i | 0 <= i < |rows|
      ensures Collides(rows[i], organizationId, TaxIdKey(taxId), exclude)
         <==> IsOther(rows[i], organizationId, exclude) && SameKey(rows[i].taxId, taxId, NormalizeTaxId)
    {
      CollidesIff(rows[i], organizationId, taxId, exclude);
    }
  }

  /** Creating is refused exactly when some row of the organization has the same non-empty key. */
  lemma {:induction false} CreateRefusedIff(rows: seq<Customer>, c: Customer, admitted: bool)
    ensures Refused(rows, Create(c, admitted))
       <==> exists i :: 0 <= i < |rows| && rows[i].organizationId == c.organizationId
                        && SameKey(rows[i].taxId, c.taxId, NormalizeTaxId)
  {
    var n := FindsFirst(rows, c.organizationId, c.taxId, "");
  }

  ghost predicate NamedRows(rows: seq<Customer>) {
    DistinctIds(rows) && forall i :: 0 <= i < |rows| ==> rows[i].id != ""
  }

  /** Updating is refused exactly when it sets a tax id whose key another row of the organization has. */
  lemma {:induction false} UpdateRefusedIff(rows: seq<Customer>, at: nat, changes: Changes, admitted: bool)
    requires NamedRows(rows) && at < |rows|
    ensures Refused(rows, Update(at, changes, admitted))
       <==> && changes.taxId.Some?
            && exists i :: 0 <= i < |rows| && i != at && rows[i].organizationId == rows[at].organizationId
                           && SameKey(rows[i].taxId, changes.taxId.value, NormalizeTaxId)
  {
    if changes.taxId.Some? && changes.taxId.value != "" {
      var n := FindsFirst(rows, rows[at].organizationId, changes.taxId.value, rows[at].id);
      forall i | 0 <= i < |rows|
        ensures IsOther(rows[i], rows[at].organizationId, rows[at].id)
           <==> i != at && rows[i].organizationId == rows[at].organizationId
      {
        assert i < at ==> rows[i].id != rows[at].id;
        assert at < i ==> rows[at].id != rows[i].id;
      }
    }
  }

  /** Saving a customer with the tax id they have, in whatever spelling, is never refused. */
  lemma {:induction false} OwnTaxIdIsAccepted(rows: seq<Customer>, at: nat, changes: Changes, admitted: bool)
    requires NamedRows(rows) && DistinctTaxIds(rows) && at < |rows|
    requires changes.taxId.Some? && TaxIdKey(changes.taxId.value) == TaxIdKey(rows[at].taxId)
    ensures !Refused(rows, Update(at, changes, admitted))
  {
    UpdateRefusedIff(rows, at, changes, admitted);
    forall i | 0 <= i < |rows| && i != at && rows[i].organizationId == rows[at].organizationId
      ensures !SameKey(rows[i].taxId, changes.taxId.value, NormalizeTaxId)
    {
      assert !SharesTaxId(rows[if i < at then i else at], rows[if i < at then at else i]);
    }
  }

  /** An update that goes through sets the given fields of its row and nothing else. */
  lemma {:induction false} UpdateSets(rows: seq<Customer>, at: nat, changes: Changes, admitted: bool)
    requires at < |rows|
    ensures var next := Written(rows, Update(at, changes, admitted));
            && |next| == |rows|
            && (forall i :: 0 <= i < |rows| && i != at ==> next[i] == rows[i])
            && (if Refused(rows, Update(at, changes, admitted))
                   || (!admitted && changes.taxId.Some? && changes.taxId.value != "") then next[at] == rows[at]
                else next[at] == Customer(rows[at].id, rows[at].organizationId,
                                          if changes.name.Some? then changes.name.value else rows[at].name,
                                          if changes.email.Some? then changes.email.value else rows[at].email,
                                          if changes.phone.Some? then changes.phone.value else rows[at].phone,
                                          if changes.taxId.Some? then changes.taxId.value else rows[at].taxId))
  {
  }

  /** A creation that goes through appends its customer. */
  lemma {:induction false} CreateAppends(rows: seq<Customer>, c: Customer, admitted: bool)
    ensures Written(rows, Create(c, admitted)) == if admitted && !Refused(rows, Create(c, admitted)) then rows + [c] else rows
  {
  }

  /** A deletion takes out its row and keeps the others in order. */
  lemma {:induction false} DeleteTakesOut(rows: seq<Customer>, at: nat, next: seq<Customer>)
    requires at < |rows| && next == Written(rows, Delete(at))
    ensures |next| + 1 == |rows| && forall i :: 0 <= i < |next| ==> next[i] == rows[if i < at then i else i + 1]
  {
    assert next == rows[..at] + rows[at + 1..];
  }

  // ---------------------------------------------------------------- what every run keeps

  predicate SharesTaxId(a: Customer, b: Customer) {
    a.organizationId == b.organizationId && TaxIdKey(a.taxId) != "" && TaxIdKey(a.taxId) == TaxIdKey(b.taxId)
  }

  /** Within an organization no two customers share a non-empty normalised tax id. */
  ghost predicate DistinctTaxIds(rows: seq<Customer>) {
    forall i, j :: 0 <= i < j < |rows| ==> !SharesTaxId(rows[i], rows[j])
  }

  ghost predicate DistinctIds(rows: seq<Customer>) {
    forall i, j :: 0 <= i < j < |rows| ==> rows[i].id != rows[j].id
  }

  /** A primary key is never handed out twice. */
  predicate FreshId(rows: seq<Customer>, write: Write) {
    write.Create? ==> forall i :: 0 <= i < |rows| ==> rows[i].id != write.customer.id
  }

  lemma {:induction false} NoCollisionNoSharing(rows: seq<Customer>, c: Customer, exclude: string, i: nat)
    requires i < |rows| && (exclude != "" ==> rows[i].id != exclude)
    requires FirstCollision(rows, c.organizationId, TaxIdKey(c.taxId), exclude).None?
    ensures !SharesTaxId(rows[i], c) && !SharesTaxId(c, rows[i])
  {
    assert !Collides(rows[i], c.organizationId, TaxIdKey(c.taxId), exclude);
  }

  lemma {:induction false} WriteKeepsTaxIdsDistinct(rows: seq<Customer>, write: Write)
    requires DistinctTaxIds(rows) && DistinctIds(rows)
    ensures DistinctTaxIds(Written(rows, write))
  {
    if Written(rows, write) != rows {
      match write {
        case Create(c, _) => CreateKeepsDistinct(rows, c);
        case Update(at, changes, _) => UpdateKeepsDistinct(rows, at, changes);
        case Delete(at) => DeleteKeepsDistinct(rows, at);
      }
    }
  }

  lemma {:induction false} WriteKeepsIdsDistinct(rows: seq<Customer>, write: Write)
    requires DistinctIds(rows) && FreshId(rows, write)
    ensures DistinctIds(Written(rows, write))
  {
  }

  lemma {:induction false} DeleteKeepsDistinct(rows: seq<Customer>, at: nat)
    requires DistinctTaxIds(rows) && at < |rows|
    ensures DistinctTaxIds(rows[..at] + rows[at + 1..])
  {
    var rest := rows[..at] + rows[at + 1..];
    forall i, j | 0 <= i < j < |rest|
      ensures !SharesTaxId(rest[i], rest[j])
    {
      var p, q := if i < at then i else i + 1, if j < at then j else j + 1;
      assert rest[i] == rows[p] && rest[j] == rows[q];
      assert !SharesTaxId(rows[p], rows[q]);
    }
  }

  lemma {:induction false} CreateKeepsDistinct(rows: seq<Customer>, c: Customer)
    requires DistinctTaxIds(rows)
    requires FirstCollision(rows, c.organizationId, TaxIdKey(c.taxId), "").None?
    ensures DistinctTaxIds(rows + [c])
  {
    forall i, j | 0 <= i < j < |rows + [c]|
      ensures !SharesTaxId((rows + [c])[i], (rows + [c])[j])
    {
      if j == |rows| {
        NoCollisionNoSharing(rows, c, "", i);
      }
    }
  }

  lemma {:induction false} UpdateKeepsDistinct(rows: seq<Customer>, at: nat, changes: Changes)
    requires DistinctTaxIds(rows) && DistinctIds(rows) && at < |rows|
    requires changes.taxId.Some? && changes.taxId.value != "" ==>
               FirstCollision(rows, rows[at].organizationId, TaxIdKey(changes.taxId.value), rows[at].id).None?
    ensures DistinctTaxIds(rows[at := Applied(rows[at], changes)])
  {
    var c := Applied(rows[at], changes);
    forall k | 0 <= k < |rows| && k != at
      ensures !SharesTaxId(rows[k], c) && !SharesTaxId(c, rows[k])
    {
      if changes.taxId.Some? && changes.taxId.value != "" {
        NoCollisionNoSharing(rows, c, rows[at].id, k);
      } else if changes.taxId.None? {
        assert c.taxId == rows[at].taxId;
        assert !SharesTaxId(rows[if k < at then k else at], rows[if k < at then at else k]);
      }
    }
  }

  function Run(writes: seq<Write>): seq<Customer> {
    if writes == [] then [] else Written(Run(writes[..|writes| - 1]), writes[|writes| - 1])
  }

  /** Every created row of the run got an id not yet in use. */
  predicate AllFresh(writes: seq<Write>) {
    writes == []
    || (AllFresh(writes[..|writes| - 1]) && FreshId(Run(writes[..|writes| - 1]), writes[|writes| - 1]))
  }

  /** After any run of guarded creates, updates and deletes, tax ids are distinct within each organization. */
  lemma {:induction false} GuardedWritesKeepTaxIdsDistinct(writes: seq<Write>)
    requires AllFresh(writes)
    ensures DistinctTaxIds(Run(writes)) && DistinctIds(Run(writes))
  {
    if writes != [] {
      var init := writes[..|writes| - 1];
      GuardedWritesKeepTaxIdsDistinct(init);
      WriteKeepsTaxIdsDistinct(Run(init), writes[|writes| - 1]);
      WriteKeepsIdsDistinct(Run(init), writes[|writes| - 1]);
    }
  }

  // ---------------------------------------------------------------- one RUT, two spellings

  /** Nothing but digits and tax-id punctuation follows the label. */
  predicate PlainlySpelled(taxId: string) {
    OnlyDigitsAndPunctuation(StripRutPrefix(taxId))
  }

  /** Two customers of one organization with the same valid RUT, however spelled. */
  predicate SameRut(a: Customer, b: Customer) {
    a.organizationId == b.organizationId && IsValidUruguayRut(a.taxId) && RutDigits(a.taxId) == RutDigits(b.taxId)
  }

  lemma {:induction false} PlainKey(a: Customer, b: Customer)
    requires SameRut(a, b)
    ensures TaxIdKey(b.taxId) == NormalizeTaxId(b.taxId) && TaxIdKey(b.taxId) != ""
    ensures PlainlySpelled(b.taxId) <==> TaxIdKey(b.taxId) == RutDigits(a.taxId)
    ensures PlainlySpelled(b.taxId) <==> AllDigits(TaxIdKey(b.taxId))
  {
    HasTaxId(b.taxId);
    KeyIsItsDigitsIff(b.taxId);
    KeyIsAllDigitsIff(b.taxId);
    EmptyIsPlain(b.taxId);
  }

  /** An empty key is all digits, so only a plain spelling without digits has one. */
  lemma {:induction false} EmptyIsPlain(taxId: string)
    requires RutDigits(taxId) != ""
    ensures NormalizeTaxId(taxId) != ""
  {
    KeyIsAllDigitsIff(taxId);
    KeyIsItsDigitsIff(taxId);
  }

  lemma {:induction false} CollisionIff(rows: seq<Customer>, organizationId: string, key: string)
    ensures FirstCollision(rows, organizationId, key, "").Some?
       <==> exists i :: 0 <= i < |rows| && Collides(rows[i], organizationId, key, "")
  {
  }

  /**
   Once a RUT is stored in a plain spelling, creating the same RUT again is refused exactly when the
   second spelling is plain too, or some row already holds a key like it that is not plain.
   */
  lemma {:induction false} SameRutRefusedIff(rows: seq<Customer>, row: Customer, c: Customer, admitted: bool)
    requires row in rows && SameRut(row, c) && PlainlySpelled(row.taxId)
    ensures Refused(rows, Create(c, admitted))
       <==> || PlainlySpelled(c.taxId)
            || exists i :: 0 <= i < |rows| && !PlainlySpelled(rows[i].taxId)
                           && Collides(rows[i], c.organizationId, TaxIdKey(c.taxId), "")
  {
    CollisionIff(rows, c.organizationId, TaxIdKey(c.taxId));
    PlainKey(row, row);
    PlainKey(row, c);
    if PlainlySpelled(c.taxId) {
      var i :| 0 <= i < |rows| && rows[i] == row;
      assert Collides(rows[i], c.organizationId, TaxIdKey(c.taxId), "");
    } else {
      forall i | 0 <= i < |rows| && Collides(rows[i], c.organizationId, TaxIdKey(c.taxId), "")
        ensures !PlainlySpelled(rows[i].taxId)
      {
        KeyIsAllDigitsIff(rows[i].taxId);
      }
    }
  }

  /** Where tax ids are distinct, one RUT is never stored twice in plain spellings. */
  lemma {:induction false} OnePlainSpelling(rows: seq<Customer>, i: nat, j: nat)
    requires DistinctTaxIds(rows) && i < j < |rows| && SameRut(rows[i], rows[j])
    ensures !PlainlySpelled(rows[i].taxId) || !PlainlySpelled(rows[j].taxId)
  {
    PlainKey(rows[i], rows[i]);
    PlainKey(rows[i], rows[j]);
    assert !SharesTaxId(rows[i], rows[j]);
  }

  /** Beside one plain spelling the same RUT is stored again in any spelling that is not plain. */
  lemma {:induction false} OtherSpellingIsStored(row: Customer, c: Customer)
    requires SameRut(row, c) && PlainlySpelled(row.taxId) && !PlainlySpelled(c.taxId)
    ensures Written([row], Create(c, true)) == [row, c]
  {
    SameRutRefusedIff([row], row, c, true);
    assert PlainlySpelled([row][0].taxId);
  }

  /** 211003420017 and 21,100342,001,7 are two such spellings. */
  lemma {:induction false} CommaRutStoredTwice(row: Customer, c: Customer)
    requires row.organizationId == c.organizationId && row.taxId == "211003420017" && c.taxId == "21,100342,001,7"
    ensures SameRut(row, c) && Written([row], Create(c, true)) == [row, c]
  {
    CommaSpellings(row.taxId, c.taxId);
    OtherSpellingIsStored(row, c);
  }

  lemma {:induction false} CommaSpellings(digits: string, commas: string)
    requires digits == "211003420017" && commas == "21,100342,001,7"
    ensures IsValidUruguayRut(digits) && RutDigits(digits) == RutDigits(commas)
    ensures PlainlySpelled(digits) && !PlainlySpelled(commas)
  {
    CommaExample(digits, commas);
    ExampleIsValid(digits);
    DigitsOfDigits(digits);
    DigitsAreDigits(digits);
    KeyOfDigits(digits);
    KeyIsItsDigitsIff(digits);
    KeyIsItsDigitsIff(commas);
  }

  lemma {:induction false} DigitsAreDigits(digits: string)
    requires digits == "211003420017"
    ensures AllDigits(digits)
  {
  }

  lemma {:induction false} HasTaxId(taxId: string)
    requires RutDigits(taxId) != ""
    ensures taxId != ""
  {
    StripTrimmed("");
  }
}
