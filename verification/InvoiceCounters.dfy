/**
 Invoice numbers per organization: the one-off backfill that numbers old invoices in date order, and
 the counter later invoices draw from.
 */
module InvoiceCounters {
  import opened Wrappers
  import opened Backfills

  datatype Invoice = Invoice(id: string, organizationId: string, createdAt: int, number: int)

  ghost predicate DistinctIds(invoices: seq<Invoice>) {
    forall i, j :: 0 <= i < j < |invoices| ==> invoices[i].id != invoices[j].id
  }

  ghost predicate DistinctOrganizations(organizations: seq<Organization>) {
    forall i, j :: 0 <= i < j < |organizations| ==> organizations[i].id != organizations[j].id
  }

  // ---------------------------------------------------------------- the query's answer

  function IndexOf(ids: seq<string>, id: string): (n: nat)
    ensures n <= |ids|
    ensures id in ids <==> n < |ids|
    ensures n < |ids| ==> ids[n] == id
  {
    if ids == [] then 0 else if ids[0] == id then 0 else 1 + IndexOf(ids[1..], id)
  }

  /** Both are the organization's, and the first was created before the second. */
  predicate Older(v: Invoice, w: Invoice, org: string) {
    v.organizationId == org && w.organizationId == org && v.createdAt < w.createdAt
  }

  predicate Repeats(ids: seq<string>, i: int, j: int) {
    0 <= i < j < |ids| && ids[i] == ids[j]
  }

  /**
   `ids` is an answer to SELECT id ... WHERE organization_id = org ORDER BY created_at: the ids of the
   organization's invoices, each once, none after a younger one. Ties may come in any order.
   */
  ghost predicate IsAnswer(ids: seq<string>, invoices: seq<Invoice>, org: string) {
    && (forall i, j :: !Repeats(ids, i, j))
    && (forall v :: v in invoices ==> (v.id in ids <==> v.organizationId == org))
    && (forall id :: id in ids ==> exists v :: v in invoices && v.id == id)
    && (forall v, w :: v in invoices && w in invoices && Older(v, w, org) ==> IndexOf(ids, v.id) < IndexOf(ids, w.id))
  }

  lemma {:induction false} IndexOfAt(ids: seq<string>, n: nat)
    requires n < |ids| && forall i, j :: !Repeats(ids, i, j)
    ensures IndexOf(ids, ids[n]) == n
  {
    var found := IndexOf(ids, ids[n]);
    if found < n {
      assert Repeats(ids, found, n);
    } else {
      FirstComesFirst(ids, n);
    }
  }

  lemma {:induction false} FirstComesFirst(ids: seq<string>, n: nat)
    requires n < |ids|
    ensures IndexOf(ids, ids[n]) <= n
  {
    if n > 0 && ids[0] != ids[n] {
      assert ids[1..][n - 1] == ids[n];
      FirstComesFirst(ids[1..], n - 1);
    }
  }

  // ---------------------------------------------------------------- the backfill

  /** UPDATE invoices SET invoice_number = n WHERE id = id */
  function SetNumber(invoices: seq<Invoice>, id: string, n: int): (r: seq<Invoice>)
    ensures |r| == |invoices|
    ensures forall j :: 0 <= j < |r| ==> r[j] == if invoices[j].id == id then invoices[j].(number := n) else invoices[j]
  {
    seq(|invoices|, j requires 0 <= j < |invoices| => if invoices[j].id == id then invoices[j].(number := n) else invoices[j])
  }

  /** UPDATE organizations SET next_invoice_number = n WHERE id = id */
  function SetCounter(organizations: seq<Organization>, id: string, n: int): (r: seq<Organization>)
    ensures |r| == |organizations|
    ensures forall j :: 0 <= j < |r| ==>
      r[j] == if organizations[j].id == id then organizations[j].(nextInvoiceNumber := n) else organizations[j]
  {
    seq(|organizations|, j requires 0 <= j < |organizations| =>
      if organizations[j].id == id then organizations[j].(nextInvoiceNumber := n) else organizations[j])
  }

  /** An invoice once the first `n` ids have been numbered. */
  function Numbered(v: Invoice, ids: seq<string>, n: nat): Invoice {
    if IndexOf(ids, v.id) < n && v.id in ids then v.(number := IndexOf(ids, v.id) + 1) else v
  }

  /** An invoice once the organizations in `handled` have been numbered. */
  function Placed(v: Invoice, handled: seq<string>, answers: map<string, seq<string>>): Invoice {
    if v.organizationId in handled && v.organizationId in answers
    then v.(number := IndexOf(answers[v.organizationId], v.id) + 1) else v
  }

  ghost predicate AllAnswered(organizations: seq<Organization>, invoices: seq<Invoice>, answers: map<string, seq<string>>) {
    forall i :: 0 <= i < |organizations| ==>
      organizations[i].id in answers && IsAnswer(answers[organizations[i].id], invoices, organizations[i].id)
  }

  /** Numbering one organization's answer numbers its invoices and no others. */
  lemma {:induction false} NumberedIsPlaced(v: Invoice, invoices: seq<Invoice>, handled: seq<string>, org: string,
                                            answers: map<string, seq<string>>)
    requires v in invoices && org in answers && IsAnswer(answers[org], invoices, org) && org !in handled
    ensures Numbered(Placed(v, handled, answers), answers[org], |answers[org]|) == Placed(v, handled + [org], answers)
  {
  }

  class Database {
    var organizations: seq<Organization>
    var invoices: seq<Invoice>

    /** Numbers one organization's invoices 1, 2, ... in the order of the query's answer. */
    method NumberInvoices(ids: seq<string>) returns (next: int)
      requires forall i, j :: !Repeats(ids, i, j)
      modifies this`invoices
      ensures next == |ids| + 1
      ensures |invoices| == |old(invoices)|
      ensures forall j :: 0 <= j < |invoices| ==> invoices[j] == Numbered(old(invoices)[j], ids, |ids|)
    {
      next := 1;
      for n := 0 to |ids|
        invariant next == n + 1
        invariant |invoices| == |old(invoices)|
        invariant forall j :: 0 <= j < |invoices| ==> invoices[j] == Numbered(old(invoices)[j], ids, n)
      {
        IndexOfAt(ids, n);
        invoices := SetNumber(invoices, ids[n], next);
        next := next + 1;
      }
    }

    /** The query's answer for each organization is given; ties in it were broken by the database. */
    method BackfillInvoiceNumbers(answers: map<string, seq<string>>)
      requires DistinctOrganizations(organizations) && AllAnswered(organizations, invoices, answers)
      modifies this
      ensures |organizations| == |old(organizations)| && |invoices| == |old(invoices)|
      ensures forall m :: 0 <= m < |organizations| ==>
        organizations[m] == old(organizations)[m].(nextInvoiceNumber := |answers[old(organizations)[m].id]| + 1)
      ensures forall j :: 0 <= j < |invoices| ==>
        invoices[j] == Placed(old(invoices)[j], OrganizationIds(old(organizations)), answers)
    {
      var orgIds := OrganizationIds(organizations);
      for m := 0 to |orgIds|
        invariant |organizations| == |orgIds| && |invoices| == |old(invoices)|
        invariant forall k :: 0 <= k < |orgIds| ==>
          organizations[k] == if k < m then old(organizations)[k].(nextInvoiceNumber := |answers[orgIds[k]]| + 1) else old(organizations)[k]
        invariant forall j :: 0 <= j < |invoices| ==> invoices[j] == Placed(old(invoices)[j], orgIds[..m], answers)
      {
        var org := orgIds[m];
        assert org !in orgIds[..m];
        assert orgIds[..m + 1] == orgIds[..m] + [org];
        var next := NumberInvoices(answers[org]);
        forall j | 0 <= j < |invoices|
          ensures invoices[j] == Placed(old(invoices)[j], orgIds[..m + 1], answers)
        {
          NumberedIsPlaced(old(invoices)[j], old(invoices), orgIds[..m], org, answers);
        }
        organizations := SetCounter(organizations, org, next);
      }
      assert orgIds[..|orgIds|] == orgIds;
    }

    /** A refused due date is noticed before the counter moves. */
    method CreateInvoiceRecord(at: nat, id: string, createdAt: int, accepted: bool) returns (number: Option<int>)
      requires at < |organizations|
      modifies this
      ensures Tables(organizations, invoices) == Created(old(Tables(organizations, invoices)), at, id, createdAt, accepted)
      ensures number == if accepted then Some(old(organizations)[at].nextInvoiceNumber) else None
    {
      if !accepted {
        return None;
      }
      var organization := organizations[at];
      var drawn := organization.nextInvoiceNumber;
      organizations := organizations[at := organization.(nextInvoiceNumber := drawn + 1)];
      invoices := invoices + [Invoice(id, organization.id, createdAt, drawn)];
      return Some(drawn);
    }
  }

  datatype Tables = Tables(organizations: seq<Organization>, invoices: seq<Invoice>)

  function Created(t: Tables, at: nat, id: string, createdAt: int, accepted: bool): Tables {
    if at >= |t.organizations| || !accepted then t
    else
      var drawn := t.organizations[at].nextInvoiceNumber;
      Tables(t.organizations[at := t.organizations[at].(nextInvoiceNumber := drawn + 1)],
             t.invoices + [Invoice(id, t.organizations[at].id, createdAt, drawn)])
  }

  /** An accepted creation takes the counter's number, moves it on by one, and touches nothing else. */
  lemma {:induction false} CreationDraws(t: Tables, at: nat, id: string, createdAt: int)
    requires at < |t.organizations|
    ensures var after, drawn := Created(t, at, id, createdAt, true), t.organizations[at].nextInvoiceNumber;
            && after.invoices == t.invoices + [Invoice(id, t.organizations[at].id, createdAt, drawn)]
            && |after.organizations| == |t.organizations|
            && after.organizations[at].nextInvoiceNumber == drawn + 1
            && after.organizations[at].id == t.organizations[at].id && after.organizations[at].planId == t.organizations[at].planId
            && (forall m :: 0 <= m < |t.organizations| && m != at ==> after.organizations[m] == t.organizations[m])
    ensures Created(t, at, id, createdAt, false) == t
  {
  }

  // ---------------------------------------------------------------- numbers without gaps

  /** How many invoices of an organization carry a number. */
  function Count(invoices: seq<Invoice>, org: string, n: int): nat {
    if invoices == [] then 0
    else
      var last := invoices[|invoices| - 1];
      Count(invoices[..|invoices| - 1], org, n) + if last.organizationId == org && last.number == n then 1 else 0
  }

  /** The organization's invoices carry each of 1, ..., counter - 1 once, and nothing else. */
  ghost predicate GapFree(invoices: seq<Invoice>, organization: Organization) {
    forall n :: Count(invoices, organization.id, n) == if 1 <= n < organization.nextInvoiceNumber then 1 else 0
  }

  ghost predicate AllGapFree(t: Tables) {
    DistinctOrganizations(t.organizations) && forall m :: 0 <= m < |t.organizations| ==> GapFree(t.invoices, t.organizations[m])
  }

  lemma {:induction false} NoneNumbered(invoices: seq<Invoice>, org: string, n: int)
    requires forall j :: 0 <= j < |invoices| && invoices[j].organizationId == org ==> invoices[j].number != n
    ensures Count(invoices, org, n) == 0
  {
    if invoices != [] {
      NoneNumbered(invoices[..|invoices| - 1], org, n);
    }
  }

  lemma {:induction false} OneNumbered(invoices: seq<Invoice>, org: string, n: int, at: nat)
    requires at < |invoices| && invoices[at].organizationId == org && invoices[at].number == n
    requires forall j :: 0 <= j < |invoices| && j != at && invoices[j].organizationId == org ==> invoices[j].number != n
    ensures Count(invoices, org, n) == 1
  {
    var front := invoices[..|invoices| - 1];
    if at == |front| {
      NoneNumbered(front, org, n);
    } else {
      OneNumbered(front, org, n, at);
    }
  }

  /** The invoices of one organization, before and after its answer was numbered. */
  ghost predicate NumberedBy(before: seq<Invoice>, after: seq<Invoice>, ids: seq<string>, org: string) {
    && |after| == |before|
    && forall j :: 0 <= j < |before| ==>
         after[j].organizationId == before[j].organizationId
         && (before[j].organizationId == org ==> after[j] == before[j].(number := IndexOf(ids, before[j].id) + 1))
  }

  lemma {:induction false} AnswerNumbersOnce(before: seq<Invoice>, after: seq<Invoice>, ids: seq<string>, org: string, n: int)
    requires DistinctIds(before) && IsAnswer(ids, before, org) && NumberedBy(before, after, ids, org)
    ensures Count(after, org, n) == if 1 <= n < |ids| + 1 then 1 else 0
  {
    forall j | 0 <= j < |before| && before[j].organizationId == org
      ensures 1 <= after[j].number <= |ids| && ids[after[j].number - 1] == before[j].id
    {
      assert before[j] in before;
    }
    if 1 <= n <= |ids| {
      var at := InvoiceAt(before, ids, org, n - 1);
      IndexOfAt(ids, n - 1);
      NumberedElsewhere(before, after, ids, org, n, at);
      OneNumbered(after, org, n, at);
    } else {
      NoneNumbered(after, org, n);
    }
  }

  /** Where the invoice stands whose id comes at a place of the answer. */
  lemma {:induction false} InvoiceAt(invoices: seq<Invoice>, ids: seq<string>, org: string, place: nat) returns (at: nat)
    requires IsAnswer(ids, invoices, org) && place < |ids|
    ensures at < |invoices| && invoices[at].id == ids[place] && invoices[at].organizationId == org
  {
    assert ids[place] in ids;
    var v :| v in invoices && v.id == ids[place];
    at :| 0 <= at < |invoices| && invoices[at] == v;
  }

  lemma {:induction false} NumberedElsewhere(before: seq<Invoice>, after: seq<Invoice>, ids: seq<string>, org: string, n: int, at: nat)
    requires DistinctIds(before) && NumberedBy(before, after, ids, org) && at < |before| && 1 <= n <= |ids|
    requires before[at].id == ids[n - 1]
    requires forall j :: 0 <= j < |before| && before[j].organizationId == org ==>
               1 <= after[j].number <= |ids| && ids[after[j].number - 1] == before[j].id
    ensures forall j :: 0 <= j < |before| && j != at && after[j].organizationId == org ==> after[j].number != n
  {
    forall j | 0 <= j < |before| && j != at && after[j].organizationId == org
      ensures after[j].number != n
    {
      assert j < at ==> before[j].id != before[at].id;
      assert at < j ==> before[at].id != before[j].id;
    }
  }

  /**
   After the backfill each organization's invoices are numbered 1, ..., k without gap or repetition, its
   counter stands at k + 1, and an older invoice has the smaller number.
   */
  lemma {:induction false} BackfillNumbersByDate(before: Tables, after: Tables, answers: map<string, seq<string>>, m: nat)
    requires DistinctIds(before.invoices) && AllAnswered(before.organizations, before.invoices, answers)
    requires |after.organizations| == |before.organizations| && |after.invoices| == |before.invoices|
    requires m < |before.organizations|
    requires after.organizations[m]
          == before.organizations[m].(nextInvoiceNumber := |answers[before.organizations[m].id]| + 1)
    requires forall j :: 0 <= j < |after.invoices| ==>
      after.invoices[j] == Placed(before.invoices[j], OrganizationIds(before.organizations), answers)
    ensures GapFree(after.invoices, after.organizations[m])
    ensures forall i, j :: 0 <= i < |after.invoices| && 0 <= j < |after.invoices|
              && Older(after.invoices[i], after.invoices[j], after.organizations[m].id)
              ==> after.invoices[i].number < after.invoices[j].number
  {
    var org := before.organizations[m].id;
    assert OrganizationIds(before.organizations)[m] == org;
    forall n
      ensures Count(after.invoices, org, n) == if 1 <= n < |answers[org]| + 1 then 1 else 0
    {
      AnswerNumbersOnce(before.invoices, after.invoices, answers[org], org, n);
    }
    forall i, j | 0 <= i < |after.invoices| && 0 <= j < |after.invoices| && Older(after.invoices[i], after.invoices[j], org)
      ensures after.invoices[i].number < after.invoices[j].number
    {
      assert Older(before.invoices[i], before.invoices[j], org);
    }
  }

  datatype Creation = Creation(at: nat, id: string, createdAt: int, accepted: bool)

  lemma {:induction false} CountAppend(invoices: seq<Invoice>, v: Invoice, org: string, n: int)
    ensures Count(invoices + [v], org, n) == Count(invoices, org, n) + if v.organizationId == org && v.number == n then 1 else 0
  {
    assert (invoices + [v])[..|invoices|] == invoices;
  }

  lemma {:induction false} CreatedStaysGapFree(t: Tables, c: Creation)
    requires AllGapFree(t) && forall m :: 0 <= m < |t.organizations| ==> t.organizations[m].nextInvoiceNumber >= 1
    ensures AllGapFree(Created(t, c.at, c.id, c.createdAt, c.accepted))
  {
    var next := Created(t, c.at, c.id, c.createdAt, c.accepted);
    if next != t {
      var v := next.invoices[|t.invoices|];
      forall m, n | 0 <= m < |t.organizations|
        ensures Count(next.invoices, next.organizations[m].id, n)
             == if 1 <= n < next.organizations[m].nextInvoiceNumber then 1 else 0
      {
        assert GapFree(t.invoices, t.organizations[m]);
        CountAppend(t.invoices, v, t.organizations[m].id, n);
      }
    }
  }

  function AfterCreations(t: Tables, run: seq<Creation>): Tables {
    if run == [] then t
    else
      var c := run[|run| - 1];
      Created(AfterCreations(t, run[..|run| - 1]), c.at, c.id, c.createdAt, c.accepted)
  }

  /** Whatever is created afterwards, by whomever, no number is ever skipped or given out twice. */
  lemma {:induction false} NumbersStayGapFree(t: Tables, run: seq<Creation>)
    requires AllGapFree(t) && forall m :: 0 <= m < |t.organizations| ==> t.organizations[m].nextInvoiceNumber >= 1
    ensures var after := AfterCreations(t, run);
            AllGapFree(after) && forall m :: 0 <= m < |after.organizations| ==> after.organizations[m].nextInvoiceNumber >= 1
  {
    if run != [] {
      NumbersStayGapFree(t, run[..|run| - 1]);
      CreatedStaysGapFree(AfterCreations(t, run[..|run| - 1]), run[|run| - 1]);
    }
  }
}
