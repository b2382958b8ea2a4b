/**
 Importing customers from a file: duplicates are looked up in key sets fetched once before the first
 row, to which every accepted row adds its own keys, whether or not its insertion then succeeds.
 */
module CustomerImports {
  import opened Wrappers
  import opened CustomerKeys
  import opened CustomerDuplicates
  import opened UruguayRut

  /** A mapped row, with the outcome of its field validation and of its insertion under the plan limit. */
  datatype FileRow = FileRow(customer: Customer, wellFormed: bool, inserted: bool)

  datatype Verdict = Invalid | DuplicateEmail | DuplicateTaxId | Accepted

  datatype RowStatus = Rejected(why: Verdict) | NotInserted | Imported

  function EmailKey(email: string): string {
    if email != "" then NormalizeCustomerEmail(email) else ""
  }

  function EmailsOf(rows: seq<Customer>, organizationId: string): set<string> {
    set c | c in rows && c.organizationId == organizationId && c.email != "" :: NormalizeCustomerEmail(c.email)
  }

  function TaxIdsOf(rows: seq<Customer>, organizationId: string): set<string> {
    set c | c in rows && c.organizationId == organizationId && c.taxId != "" :: NormalizeTaxId(c.taxId)
  }

  /** Keys already taken: those fetched before the import and those of the rows accepted since. */
  datatype Taken = Taken(emails: set<string>, taxIds: set<string>)

  function Fetched(rows: seq<Customer>, organizationId: string): Taken {
    Taken(EmailsOf(rows, organizationId), TaxIdsOf(rows, organizationId))
  }

  function With(keys: set<string>, key: string): set<string> {
    if key != "" then keys + {key} else keys
  }

  /** What is decided about a row before it is inserted. */
  function VerdictOf(taken: Taken, row: FileRow): Verdict {
    if !row.wellFormed then Invalid
    else if EmailKey(row.customer.email) != "" && EmailKey(row.customer.email) in taken.emails then DuplicateEmail
    else if TaxIdKey(row.customer.taxId) != "" && TaxIdKey(row.customer.taxId) in taken.taxIds then DuplicateTaxId
    else Accepted
  }

  function StatusOf(verdict: Verdict, row: FileRow): RowStatus {
    if verdict != Accepted then Rejected(verdict) else if row.inserted then Imported else NotInserted
  }

  /** An accepted row takes its keys even if its insertion fails. */
  function TakenAfter(taken: Taken, row: FileRow): Taken {
    if VerdictOf(taken, row) == Accepted
    then Taken(With(taken.emails, EmailKey(row.customer.email)), With(taken.taxIds, TaxIdKey(row.customer.taxId)))
    else taken
  }

  function OwnedBy(organizationId: string, row: FileRow): Customer {
    row.customer.(organizationId := organizationId)
  }

  /** The keys taken once the first n rows of the file have been processed. */
  function TakenBy(rows: seq<Customer>, organizationId: string, file: seq<FileRow>, n: nat): Taken
    requires n <= |file|
  {
    if n == 0 then Fetched(rows, organizationId)
    else TakenAfter(TakenBy(rows, organizationId, file, n - 1), file[n - 1])
  }

  function StatusAt(rows: seq<Customer>, organizationId: string, file: seq<FileRow>, n: nat): RowStatus
    requires n < |file|
  {
    StatusOf(VerdictOf(TakenBy(rows, organizationId, file, n), file[n]), file[n])
  }

  /** What the import reports, row by row. */
  function Statuses(rows: seq<Customer>, organizationId: string, file: seq<FileRow>): (statuses: seq<RowStatus>)
    ensures |statuses| == |file| && forall k :: 0 <= k < |file| ==> statuses[k] == StatusAt(rows, organizationId, file, k)
  {
    seq(|file|, k requires 0 <= k < |file| => StatusAt(rows, organizationId, file, k))
  }

  function Added(rows: seq<Customer>, organizationId: string, row: FileRow, taken: bool): seq<Customer> {
    if taken then rows + [OwnedBy(organizationId, row)] else rows
  }

  /** The table once the first n rows of the file have been processed. */
  function Stored(rows: seq<Customer>, organizationId: string, file: seq<FileRow>, statuses: seq<RowStatus>, n: nat): seq<Customer>
    requires n <= |file| == |statuses|
  {
    if n == 0 then rows
    else Added(Stored(rows, organizationId, file, statuses, n - 1), organizationId, file[n - 1], statuses[n - 1] == Imported)
  }

  /** The table after an import. */
  function WithImport(rows: seq<Customer>, organizationId: string, file: seq<FileRow>): seq<Customer> {
    Stored(rows, organizationId, file, Statuses(rows, organizationId, file), |file|)
  }

  // ---------------------------------------------------------------- the row processor and the import loop

  function Union(a: Taken, b: Taken): Taken {
    Taken(a.emails + b.emails, a.taxIds + b.taxIds)
  }

  lemma {:induction false} UnionWith(a: set<string>, b: set<string>, key: string)
    ensures a + With(b, key) == With(a + b, key)
  {
  }

  /** Decides about the rows of one file in their order. */
  class RowProcessor {
    const existing: Taken
    var seen: Taken

    function TakenKeys(): Taken
      reads this
    {
      Union(existing, seen)
    }

    constructor (existing: Taken)
      ensures TakenKeys() == existing
    {
      this.existing := existing;
      seen := Taken({}, {});
    }

    method Process(row: FileRow) returns (verdict: Verdict)
      modifies this
      ensures verdict == VerdictOf(old(TakenKeys()), row)
      ensures TakenKeys() == TakenAfter(old(TakenKeys()), row)
    {
      if !row.wellFormed {
        return Invalid;
      }
      var email, taxId := EmailKey(row.customer.email), TaxIdKey(row.customer.taxId);
      if email != "" && (email in existing.emails || email in seen.emails) {
        return DuplicateEmail;
      }
      if taxId != "" && (taxId in existing.taxIds || taxId in seen.taxIds) {
        return DuplicateTaxId;
      }
      UnionWith(existing.emails, seen.emails, email);
      UnionWith(existing.taxIds, seen.taxIds, taxId);
      seen := Taken(With(seen.emails, email), With(seen.taxIds, taxId));
      return Accepted;
    }
  }

  lemma {:induction false} TakenStep(rows: seq<Customer>, organizationId: string, file: seq<FileRow>, n: nat,
                                     taken: Taken, row: FileRow, verdict: Verdict)
    requires n < |file| && row == file[n] && taken == TakenBy(rows, organizationId, file, n) && verdict == VerdictOf(taken, row)
    ensures TakenBy(rows, organizationId, file, n + 1) == TakenAfter(taken, row)
    ensures Statuses(rows, organizationId, file)[n] == StatusOf(verdict, row)
  {
  }

  /** What has been stored and reported once the first n rows have been processed. */
  ghost predicate StoredSoFar(before: seq<Customer>, organizationId: string, file: seq<FileRow>, all: seq<RowStatus>, n: nat,
                              rows: seq<Customer>, statuses: seq<RowStatus>)
    requires n <= |file| == |all|
  {
    rows == Stored(before, organizationId, file, all, n) && statuses == all[..n]
  }

  lemma {:induction false} StoredOneMore(before: seq<Customer>, organizationId: string, file: seq<FileRow>, all: seq<RowStatus>,
                                         n: nat, rows: seq<Customer>, statuses: seq<RowStatus>, row: FileRow, status: RowStatus)
    requires n < |file| == |all| && row == file[n] && status == all[n]
    requires StoredSoFar(before, organizationId, file, all, n, rows, statuses)
    ensures StoredSoFar(before, organizationId, file, all, n + 1,
                        Added(rows, organizationId, row, status == Imported), statuses + [status])
  {
    assert all[..n + 1] == all[..n] + [all[n]];
  }

  method ImportCustomers(table: CustomerTable, organizationId: string, file: seq<FileRow>) returns (statuses: seq<RowStatus>)
    modifies table
    ensures statuses == Statuses(old(table.rows), organizationId, file)
    ensures table.rows == WithImport(old(table.rows), organizationId, file)
  {
    ghost var all := Statuses(table.rows, organizationId, file);
    var processor := new RowProcessor(Fetched(table.rows, organizationId));
    statuses := [];
    for n := 0 to |file|
      invariant processor.TakenKeys() == TakenBy(old(table.rows), organizationId, file, n)
      invariant StoredSoFar(old(table.rows), organizationId, file, all, n, table.rows, statuses)
    {
      ghost var taken := processor.TakenKeys();
      var verdict := processor.Process(file[n]);
      var status := StatusOf(verdict, file[n]);
      TakenStep(old(table.rows), organizationId, file, n, taken, file[n], verdict);
      StoredOneMore(old(table.rows), organizationId, file, all, n, table.rows, statuses, file[n], status);
      table.rows := Added(table.rows, organizationId, file[n], status == Imported);
      statuses := statuses + [status];
    }
  }

  // ---------------------------------------------------------------- what the key sets stand for

  predicate HoldsEmail(rows: seq<Customer>, organizationId: string, key: string) {
    key != "" && exists i :: 0 <= i < |rows| && rows[i].organizationId == organizationId && EmailKey(rows[i].email) == key
  }

  predicate HoldsTaxId(rows: seq<Customer>, organizationId: string, key: string) {
    key != "" && exists i :: 0 <= i < |rows| && rows[i].organizationId == organizationId && TaxIdKey(rows[i].taxId) == key
  }

  /** The key sets answer for this table. */
  ghost predicate Reflects(taken: Taken, rows: seq<Customer>, organizationId: string) {
    && (forall key :: key != "" ==> (key in taken.emails <==> HoldsEmail(rows, organizationId, key)))
    && (forall key :: key != "" ==> (key in taken.taxIds <==> HoldsTaxId(rows, organizationId, key)))
  }

  lemma {:induction false} FetchedReflects(rows: seq<Customer>, organizationId: string)
    ensures Reflects(Fetched(rows, organizationId), rows, organizationId)
  {
  }

  lemma {:induction false} HoldsMore(rows: seq<Customer>, c: Customer, organizationId: string, key: string)
    requires c.organizationId == organizationId
    ensures HoldsEmail(rows + [c], organizationId, key)
       <==> HoldsEmail(rows, organizationId, key) || (key != "" && EmailKey(c.email) == key)
    ensures HoldsTaxId(rows + [c], organizationId, key)
       <==> HoldsTaxId(rows, organizationId, key) || (key != "" && TaxIdKey(c.taxId) == key)
  {
    var more := rows + [c];
    assert more[|rows|] == c;
    assert forall i :: 0 <= i < |rows| ==> more[i] == rows[i];
  }

  lemma {:induction false} AddedReflects(taken: Taken, rows: seq<Customer>, organizationId: string, c: Customer)
    requires Reflects(taken, rows, organizationId) && c.organizationId == organizationId
    ensures Reflects(Taken(With(taken.emails, EmailKey(c.email)), With(taken.taxIds, TaxIdKey(c.taxId))), rows + [c], organizationId)
  {
    forall key | key != ""
      ensures key in With(taken.emails, EmailKey(c.email)) <==> HoldsEmail(rows + [c], organizationId, key)
      ensures key in With(taken.taxIds, TaxIdKey(c.taxId)) <==> HoldsTaxId(rows + [c], organizationId, key)
    {
      HoldsMore(rows, c, organizationId, key);
    }
  }

  // ---------------------------------------------------------------- the import, one row at a time

  /** Whether a single row would be taken in by somebody who looks at the whole table for it. */
  predicate Welcome(rows: seq<Customer>, organizationId: string, row: FileRow) {
    && row.wellFormed
    && !HoldsEmail(rows, organizationId, EmailKey(row.customer.email))
    && !HoldsTaxId(rows, organizationId, TaxIdKey(row.customer.taxId))
  }

  function WithWelcome(rows: seq<Customer>, organizationId: string, row: FileRow): seq<Customer> {
    Added(rows, organizationId, row, Welcome(rows, organizationId, row))
  }

  /** Importing row by row, each checked against the table as it is then, if every insertion succeeded. */
  function OneByOne(rows: seq<Customer>, organizationId: string, file: seq<FileRow>, n: nat): seq<Customer>
    requires n <= |file|
  {
    if n == 0 then rows else WithWelcome(OneByOne(rows, organizationId, file, n - 1), organizationId, file[n - 1])
  }

  lemma {:induction false} AcceptedIffWelcome(taken: Taken, rows: seq<Customer>, organizationId: string, row: FileRow)
    requires Reflects(taken, rows, organizationId)
    ensures VerdictOf(taken, row) == Accepted <==> Welcome(rows, organizationId, row)
  {
  }

  lemma {:induction false} ReflectsStep(taken: Taken, rows: seq<Customer>, organizationId: string, row: FileRow)
    requires Reflects(taken, rows, organizationId)
    ensures Reflects(TakenAfter(taken, row), WithWelcome(rows, organizationId, row), organizationId)
  {
    AcceptedIffWelcome(taken, rows, organizationId, row);
    if Welcome(rows, organizationId, row) {
      AddedReflects(taken, rows, organizationId, OwnedBy(organizationId, row));
    }
  }

  /** The tables the row-by-row import goes through. */
  function TablesOneByOne(rows: seq<Customer>, organizationId: string, file: seq<FileRow>): (tables: seq<seq<Customer>>)
    ensures |tables| == |file| + 1
    ensures forall n :: 0 <= n <= |file| ==> tables[n] == OneByOne(rows, organizationId, file, n)
  {
    seq(|file| + 1, n requires 0 <= n < |file| + 1 => OneByOne(rows, organizationId, file, n))
  }

  /** The keys taken from row to row. */
  function TakenThroughout(rows: seq<Customer>, organizationId: string, file: seq<FileRow>): (takens: seq<Taken>)
    ensures |takens| == |file| + 1
    ensures forall n :: 0 <= n <= |file| ==> takens[n] == TakenBy(rows, organizationId, file, n)
  {
    seq(|file| + 1, n requires 0 <= n < |file| + 1 => TakenBy(rows, organizationId, file, n))
  }

  lemma {:induction false} ReflectsNext(rows: seq<Customer>, organizationId: string, file: seq<FileRow>, n: nat,
                                        taken: Taken, now: seq<Customer>, takenNext: Taken, next: seq<Customer>)
    requires n < |file| && Reflects(taken, now, organizationId)
    requires taken == TakenBy(rows, organizationId, file, n) && now == OneByOne(rows, organizationId, file, n)
    requires takenNext == TakenBy(rows, organizationId, file, n + 1) && next == OneByOne(rows, organizationId, file, n + 1)
    ensures Reflects(takenNext, next, organizationId)
  {
    ReflectsStep(taken, now, organizationId, file[n]);
  }

  lemma {:induction false} ReflectsAlong(takens: seq<Taken>, tables: seq<seq<Customer>>, organizationId: string, n: nat)
    requires n < |takens| == |tables| && Reflects(takens[0], tables[0], organizationId)
    requires forall k :: 0 <= k < |takens| - 1 && Reflects(takens[k], tables[k], organizationId) ==>
               Reflects(takens[k + 1], tables[k + 1], organizationId)
    ensures Reflects(takens[n], tables[n], organizationId)
  {
    if n > 0 {
      ReflectsAlong(takens, tables, organizationId, n - 1);
    }
  }

  /** From row to row, the key sets answer for the table of the row-by-row import. */
  lemma {:induction false} TakenReflects(rows: seq<Customer>, organizationId: string, file: seq<FileRow>, n: nat)
    requires n <= |file|
    ensures Reflects(TakenBy(rows, organizationId, file, n), OneByOne(rows, organizationId, file, n), organizationId)
  {
    var takens, tables := TakenThroughout(rows, organizationId, file), TablesOneByOne(rows, organizationId, file);
    FetchedReflects(rows, organizationId);
    forall k | 0 <= k < |takens| - 1 && Reflects(takens[k], tables[k], organizationId)
      ensures Reflects(takens[k + 1], tables[k + 1], organizationId)
    {
      ReflectsNext(rows, organizationId, file, k, takens[k], tables[k], takens[k + 1], tables[k + 1]);
    }
    ReflectsAlong(takens, tables, organizationId, n);
  }

  lemma {:induction false} RejectedUnlessWelcome(rows: seq<Customer>, organizationId: string, file: seq<FileRow>, n: nat)
    requires n < |file|
    ensures var status := StatusAt(rows, organizationId, file, n);
            && (!status.Rejected? <==> Welcome(OneByOne(rows, organizationId, file, n), organizationId, file[n]))
            && (!status.Rejected? ==> (status == Imported <==> file[n].inserted))
  {
    TakenReflects(rows, organizationId, file, n);
    AcceptedIffWelcome(TakenBy(rows, organizationId, file, n), OneByOne(rows, organizationId, file, n), organizationId, file[n]);
  }

  lemma {:induction false} VerdictByTable(taken: Taken, rows: seq<Customer>, organizationId: string, row: FileRow)
    requires Reflects(taken, rows, organizationId)
    ensures VerdictOf(taken, row)
         == if !row.wellFormed then Invalid
            else if HoldsEmail(rows, organizationId, EmailKey(row.customer.email)) then DuplicateEmail
            else if FirstCollision(rows, organizationId, TaxIdKey(row.customer.taxId), "").Some? then DuplicateTaxId
            else Accepted
  {
    HeldIsFound(rows, organizationId, row.customer.taxId);
  }

  /**
   Fetching the keys once decides about every row as looking at the whole table each time would: by
   email first, then by the search that guards every other write.
   */
  lemma {:induction false} VerdictIsOneByOne(rows: seq<Customer>, organizationId: string, file: seq<FileRow>, n: nat)
    requires n < |file|
    ensures var now, row := OneByOne(rows, organizationId, file, n), file[n];
            VerdictOf(TakenBy(rows, organizationId, file, n), row)
            == if !row.wellFormed then Invalid
               else if HoldsEmail(now, organizationId, EmailKey(row.customer.email)) then DuplicateEmail
               else if FirstCollision(now, organizationId, TaxIdKey(row.customer.taxId), "").Some? then DuplicateTaxId
               else Accepted
  {
    TakenReflects(rows, organizationId, file, n);
    VerdictByTable(TakenBy(rows, organizationId, file, n), OneByOne(rows, organizationId, file, n), organizationId, file[n]);
  }

  lemma {:induction false} HeldIsFound(rows: seq<Customer>, organizationId: string, taxId: string)
    ensures HoldsTaxId(rows, organizationId, TaxIdKey(taxId)) <==> FirstCollision(rows, organizationId, TaxIdKey(taxId), "").Some?
  {
    CollisionIff(rows, organizationId, TaxIdKey(taxId));
    forall i | 0 <= i < |rows|
      ensures Collides(rows[i], organizationId, TaxIdKey(taxId), "")
         <==> TaxIdKey(taxId) != "" && rows[i].organizationId == organizationId && TaxIdKey(rows[i].taxId) == TaxIdKey(taxId)
    {
    }
  }

  /** The table if every insertion had succeeded. */
  function Admitted(rows: seq<Customer>, organizationId: string, file: seq<FileRow>, statuses: seq<RowStatus>, n: nat): seq<Customer>
    requires n <= |file| == |statuses|
  {
    if n == 0 then rows
    else Added(Admitted(rows, organizationId, file, statuses, n - 1), organizationId, file[n - 1], !statuses[n - 1].Rejected?)
  }

  lemma {:induction false} OneByOneStep(rows: seq<Customer>, organizationId: string, file: seq<FileRow>,
                                         statuses: seq<RowStatus>, n: nat)
    requires n < |file| && statuses == Statuses(rows, organizationId, file)
    ensures OneByOne(rows, organizationId, file, n + 1)
         == Added(OneByOne(rows, organizationId, file, n), organizationId, file[n], !statuses[n].Rejected?)
  {
    RejectedUnlessWelcome(rows, organizationId, file, n);
  }

  lemma {:induction false} AdmittedIs(tables: seq<seq<Customer>>, organizationId: string, file: seq<FileRow>,
                                      statuses: seq<RowStatus>, n: nat)
    requires n <= |file| == |statuses| && |tables| == |file| + 1
    requires forall k :: 0 <= k < |file| ==> tables[k + 1] == Added(tables[k], organizationId, file[k], !statuses[k].Rejected?)
    ensures Admitted(tables[0], organizationId, file, statuses, n) == tables[n]
  {
    if n > 0 {
      AdmittedIs(tables, organizationId, file, statuses, n - 1);
    }
  }

  lemma {:induction false} TableStep(rows: seq<Customer>, organizationId: string, file: seq<FileRow>,
                                     statuses: seq<RowStatus>, k: nat, now: seq<Customer>, next: seq<Customer>)
    requires k < |file| && statuses == Statuses(rows, organizationId, file)
    requires now == OneByOne(rows, organizationId, file, k) && next == OneByOne(rows, organizationId, file, k + 1)
    ensures next == Added(now, organizationId, file[k], !statuses[k].Rejected?)
  {
    OneByOneStep(rows, organizationId, file, statuses, k);
  }

  lemma {:induction false} AdmittedIsOneByOne(rows: seq<Customer>, organizationId: string, file: seq<FileRow>,
                                              statuses: seq<RowStatus>, n: nat)
    requires n <= |file| && statuses == Statuses(rows, organizationId, file)
    ensures Admitted(rows, organizationId, file, statuses, n) == OneByOne(rows, organizationId, file, n)
  {
    var tables := TablesOneByOne(rows, organizationId, file);
    forall k | 0 <= k < |file|
      ensures tables[k + 1] == Added(tables[k], organizationId, file[k], !statuses[k].Rejected?)
    {
      TableStep(rows, organizationId, file, statuses, k, tables[k], tables[k + 1]);
    }
    AdmittedIs(tables, organizationId, file, statuses, n);
  }

  lemma {:induction false} StoredIsAdmitted(rows: seq<Customer>, organizationId: string, file: seq<FileRow>,
                                            statuses: seq<RowStatus>, n: nat)
    requires n <= |file| == |statuses| && forall k :: 0 <= k < n ==> statuses[k] != NotInserted
    ensures Stored(rows, organizationId, file, statuses, n) == Admitted(rows, organizationId, file, statuses, n)
  {
    if n > 0 {
      StoredIsAdmitted(rows, organizationId, file, statuses, n - 1);
    }
  }

  /** As long as no insertion fails, the import is the row-by-row one. */
  lemma {:induction false} ImportIsOneByOne(rows: seq<Customer>, organizationId: string, file: seq<FileRow>)
    requires forall k :: 0 <= k < |file| ==> file[k].inserted
    ensures WithImport(rows, organizationId, file) == OneByOne(rows, organizationId, file, |file|)
  {
    var statuses := Statuses(rows, organizationId, file);
    AdmittedIsOneByOne(rows, organizationId, file, statuses, |file|);
    StoredIsAdmitted(rows, organizationId, file, statuses, |file|);
  }

  // ---------------------------------------------------------------- the import, field by field

  /** Some row of the organization has this email, up to how it is written. */
  predicate EmailTaken(rows: seq<Customer>, organizationId: string, email: string) {
    exists i :: 0 <= i < |rows| && rows[i].organizationId == organizationId
                && SameKey(rows[i].email, email, NormalizeCustomerEmail)
  }

  predicate TaxIdTaken(rows: seq<Customer>, organizationId: string, taxId: string) {
    exists i :: 0 <= i < |rows| && rows[i].organizationId == organizationId
                && SameKey(rows[i].taxId, taxId, NormalizeTaxId)
  }

  lemma {:induction false} EmailTakenIff(rows: seq<Customer>, organizationId: string, email: string)
    ensures HoldsEmail(rows, organizationId, EmailKey(email)) <==> EmailTaken(rows, organizationId, email)
  {
    forall i | 0 <= i < |rows|
      ensures SameKey(rows[i].email, email, NormalizeCustomerEmail)
         <==> EmailKey(email) != "" && EmailKey(rows[i].email) == EmailKey(email)
    {
    }
  }

  lemma {:induction false} TaxIdTakenIff(rows: seq<Customer>, organizationId: string, taxId: string)
    ensures FirstCollision(rows, organizationId, TaxIdKey(taxId), "").Some? <==> TaxIdTaken(rows, organizationId, taxId)
  {
    var n := FindsFirst(rows, organizationId, taxId, "");
  }

  /**
   The status of every row: whether its fields are in order, then whether its email and then its tax id is
   taken by a row of the organization, stored before or accepted from the file so far, then its insertion.
   */
  lemma {:induction false} StatusIs(rows: seq<Customer>, organizationId: string, file: seq<FileRow>, n: nat)
    requires n < |file|
    ensures var now, row := OneByOne(rows, organizationId, file, n), file[n];
            Statuses(rows, organizationId, file)[n]
            == if !row.wellFormed then Rejected(Invalid)
               else if EmailTaken(now, organizationId, row.customer.email) then Rejected(DuplicateEmail)
               else if TaxIdTaken(now, organizationId, row.customer.taxId) then Rejected(DuplicateTaxId)
               else if row.inserted then Imported
               else NotInserted
  {
    var now := OneByOne(rows, organizationId, file, n);
    VerdictIsOneByOne(rows, organizationId, file, n);
    EmailTakenIff(now, organizationId, file[n].customer.email);
    TaxIdTakenIff(now, organizationId, file[n].customer.taxId);
  }

  /** The accepted rows of the file follow those stored before, each with its own fields and the organization's id. */
  lemma {:induction false} OneByOneIs(rows: seq<Customer>, organizationId: string, file: seq<FileRow>, n: nat)
    requires n < |file|
    ensures var now, c := OneByOne(rows, organizationId, file, n), file[n].customer;
            && OneByOne(rows, organizationId, file, 0) == rows
            && OneByOne(rows, organizationId, file, n + 1)
               == if Statuses(rows, organizationId, file)[n].Rejected? then now
                  else now + [Customer(c.id, organizationId, c.name, c.email, c.phone, c.taxId)]
  {
    OneByOneStep(rows, organizationId, file, Statuses(rows, organizationId, file), n);
  }

  /** The imported rows of the file are appended in order, each with its own fields and the organization's id. */
  lemma {:induction false} StoredIs(rows: seq<Customer>, organizationId: string, file: seq<FileRow>, statuses: seq<RowStatus>, n: nat)
    requires n < |file| == |statuses|
    ensures var now, c := Stored(rows, organizationId, file, statuses, n), file[n].customer;
            && Stored(rows, organizationId, file, statuses, 0) == rows
            && Stored(rows, organizationId, file, statuses, n + 1)
               == if statuses[n] == Imported then now + [Customer(c.id, organizationId, c.name, c.email, c.phone, c.taxId)]
                  else now
  {
  }

  // ---------------------------------------------------------------- what an import keeps

  predicate SharesEmail(a: Customer, b: Customer) {
    a.organizationId == b.organizationId && EmailKey(a.email) != "" && EmailKey(a.email) == EmailKey(b.email)
  }

  /** Every row stored by then was admitted by then. */
  lemma {:induction false} StoredWasAdmitted(rows: seq<Customer>, organizationId: string, file: seq<FileRow>,
                                             statuses: seq<RowStatus>, n: nat)
    requires n <= |file| == |statuses|
    ensures forall c :: c in Stored(rows, organizationId, file, statuses, n) ==> c in Admitted(rows, organizationId, file, statuses, n)
  {
    if n > 0 {
      StoredWasAdmitted(rows, organizationId, file, statuses, n - 1);
    }
  }

  lemma {:induction false} NewcomerShares(rows: seq<Customer>, other: Customer, organizationId: string, row: FileRow)
    requires Welcome(rows, organizationId, row) && other in rows
    ensures !SharesEmail(other, OwnedBy(organizationId, row)) && !SharesTaxId(other, OwnedBy(organizationId, row))
  {
    var i :| 0 <= i < |rows| && rows[i] == other;
  }

  /** The row shares neither an email nor a tax id with any of these. */
  ghost predicate Apart(rows: seq<Customer>, c: Customer) {
    forall i :: 0 <= i < |rows| ==> !SharesEmail(rows[i], c) && !SharesTaxId(rows[i], c)
  }

  lemma {:induction false} NewcomerIsApart(rows: seq<Customer>, accepted: seq<Customer>, organizationId: string, row: FileRow)
    requires Welcome(accepted, organizationId, row) && forall c :: c in rows ==> c in accepted
    ensures Apart(rows, OwnedBy(organizationId, row))
  {
    forall i | 0 <= i < |rows|
      ensures !SharesEmail(rows[i], OwnedBy(organizationId, row)) && !SharesTaxId(rows[i], OwnedBy(organizationId, row))
    {
      NewcomerShares(accepted, rows[i], organizationId, row);
    }
  }

  /** Whatever an import adds shares no email and no tax id with any row before it. */
  lemma {:induction false} ImportedIsApart(rows: seq<Customer>, organizationId: string, file: seq<FileRow>,
                                           statuses: seq<RowStatus>, n: nat)
    requires statuses == Statuses(rows, organizationId, file) && n < |file| && statuses[n] == Imported
    ensures Apart(Stored(rows, organizationId, file, statuses, n), OwnedBy(organizationId, file[n]))
  {
    var stored, now := Stored(rows, organizationId, file, statuses, n), OneByOne(rows, organizationId, file, n);
    RejectedUnlessWelcome(rows, organizationId, file, n);
    StoredWasAdmitted(rows, organizationId, file, statuses, n);
    AdmittedIsOneByOne(rows, organizationId, file, statuses, n);
    NewcomerIsApart(stored, now, organizationId, file[n]);
  }

  /** The same in the fields' own terms: a row of the organization stored before has another email and another tax id. */
  lemma {:induction false} ImportedIsNew(rows: seq<Customer>, organizationId: string, file: seq<FileRow>,
                                         statuses: seq<RowStatus>, n: nat)
    requires statuses == Statuses(rows, organizationId, file) && n < |file| && statuses[n] == Imported
    ensures !EmailTaken(Stored(rows, organizationId, file, statuses, n), organizationId, file[n].customer.email)
    ensures !TaxIdTaken(Stored(rows, organizationId, file, statuses, n), organizationId, file[n].customer.taxId)
  {
    ImportedIsApart(rows, organizationId, file, statuses, n);
    ApartIsNew(Stored(rows, organizationId, file, statuses, n), OwnedBy(organizationId, file[n]));
  }

  lemma {:induction false} ApartIsNew(rows: seq<Customer>, c: Customer)
    requires Apart(rows, c)
    ensures !EmailTaken(rows, c.organizationId, c.email) && !TaxIdTaken(rows, c.organizationId, c.taxId)
  {
    forall i | 0 <= i < |rows| && rows[i].organizationId == c.organizationId
      ensures !SameKey(rows[i].email, c.email, NormalizeCustomerEmail) && !SameKey(rows[i].taxId, c.taxId, NormalizeTaxId)
    {
      assert !SharesEmail(rows[i], c) && !SharesTaxId(rows[i], c);
    }
  }

  lemma {:induction false} ApartKeepsDistinct(rows: seq<Customer>, c: Customer)
    requires DistinctTaxIds(rows) && Apart(rows, c)
    ensures DistinctTaxIds(rows + [c])
  {
  }

  /** What every single addition keeps, the whole import keeps. */
  lemma {:induction false} StoredKeeps(rows: seq<Customer>, organizationId: string, file: seq<FileRow>,
                                       statuses: seq<RowStatus>, n: nat, kept: seq<Customer> -> bool)
    requires n <= |file| == |statuses| && kept(rows)
    requires forall k: nat :: k < |file| && statuses[k] == Imported && kept(Stored(rows, organizationId, file, statuses, k)) ==>
               kept(Stored(rows, organizationId, file, statuses, k) + [OwnedBy(organizationId, file[k])])
    ensures kept(Stored(rows, organizationId, file, statuses, n))
  {
    if n > 0 {
      StoredKeeps(rows, organizationId, file, statuses, n - 1, kept);
    }
  }

  lemma {:induction false} ImportKeepsTaxIdsDistinct(rows: seq<Customer>, organizationId: string, file: seq<FileRow>)
    requires DistinctTaxIds(rows)
    ensures DistinctTaxIds(WithImport(rows, organizationId, file))
  {
    var statuses := Statuses(rows, organizationId, file);
    forall k: nat | k < |file| && statuses[k] == Imported && DistinctTaxIds(Stored(rows, organizationId, file, statuses, k))
      ensures DistinctTaxIds(Stored(rows, organizationId, file, statuses, k) + [OwnedBy(organizationId, file[k])])
    {
      ImportedIsApart(rows, organizationId, file, statuses, k);
      ApartKeepsDistinct(Stored(rows, organizationId, file, statuses, k), OwnedBy(organizationId, file[k]));
    }
    StoredKeeps(rows, organizationId, file, statuses, |file|, DistinctTaxIds);
  }

  // ---------------------------------------------------------------- runs of writes and imports

  datatype Change = One(write: Write) | Import(organizationId: string, file: seq<FileRow>)

  function Changed(rows: seq<Customer>, change: Change): seq<Customer> {
    match change
    case One(write) => Written(rows, write)
    case Import(organizationId, file) => WithImport(rows, organizationId, file)
  }

  /** A primary key is never handed out twice. */
  predicate FreshIds(rows: seq<Customer>, change: Change) {
    match change
    case One(write) => FreshId(rows, write)
    case Import(_, file) =>
      && (forall k :: 0 <= k < |file| ==> forall i :: 0 <= i < |rows| ==> rows[i].id != file[k].customer.id)
      && (forall k, l :: 0 <= k < l < |file| ==> file[k].customer.id != file[l].customer.id)
  }

  function AfterAll(changes: seq<Change>): seq<Customer> {
    if changes == [] then [] else Changed(AfterAll(changes[..|changes| - 1]), changes[|changes| - 1])
  }

  predicate AllIdsFresh(changes: seq<Change>) {
    changes == []
    || (AllIdsFresh(changes[..|changes| - 1]) && FreshIds(AfterAll(changes[..|changes| - 1]), changes[|changes| - 1]))
  }

  /** No id of these rows is still to come in the file. */
  ghost predicate IdsToCome(rows: seq<Customer>, file: seq<FileRow>, n: nat)
    requires n <= |file|
  {
    forall k, i :: n <= k < |file| && 0 <= i < |rows| ==> rows[i].id != file[k].customer.id
  }

  lemma {:induction false} AddedKeepsIdsDistinct(rows: seq<Customer>, organizationId: string, file: seq<FileRow>, n: nat, taken: bool)
    requires n < |file| && DistinctIds(rows) && IdsToCome(rows, file, n)
    requires forall k, l :: 0 <= k < l < |file| ==> file[k].customer.id != file[l].customer.id
    ensures DistinctIds(Added(rows, organizationId, file[n], taken))
    ensures IdsToCome(Added(rows, organizationId, file[n], taken), file, n + 1)
  {
  }

  lemma {:induction false} ImportKeepsIdsDistinct(rows: seq<Customer>, organizationId: string, file: seq<FileRow>,
                                                  statuses: seq<RowStatus>, n: nat)
    requires n <= |file| == |statuses| && DistinctIds(rows) && FreshIds(rows, Import(organizationId, file))
    ensures DistinctIds(Stored(rows, organizationId, file, statuses, n))
    ensures IdsToCome(Stored(rows, organizationId, file, statuses, n), file, n)
  {
    if n > 0 {
      ImportKeepsIdsDistinct(rows, organizationId, file, statuses, n - 1);
      AddedKeepsIdsDistinct(Stored(rows, organizationId, file, statuses, n - 1), organizationId, file, n - 1,
                            statuses[n - 1] == Imported);
    }
  }

  /**
   After any run of guarded creates, updates, deletes and imports, no two customers of an organization
   share a non-empty normalised tax id.
   */
  lemma {:induction false} EveryRunKeepsTaxIdsDistinct(changes: seq<Change>)
    requires AllIdsFresh(changes)
    ensures DistinctTaxIds(AfterAll(changes)) && DistinctIds(AfterAll(changes))
  {
    if changes != [] {
      var rows := AfterAll(changes[..|changes| - 1]);
      EveryRunKeepsTaxIdsDistinct(changes[..|changes| - 1]);
      match changes[|changes| - 1] {
        case One(write) =>
          WriteKeepsTaxIdsDistinct(rows, write);
          WriteKeepsIdsDistinct(rows, write);
        case Import(organizationId, file) =>
          ImportKeepsTaxIdsDistinct(rows, organizationId, file);
          ImportKeepsIdsDistinct(rows, organizationId, file, Statuses(rows, organizationId, file), |file|);
      }
    }
  }

  /** Two rows of a run hold the same valid RUT only if one of them spells it with other characters. */
  lemma {:induction false} RutStoredPlainlyOnce(changes: seq<Change>, i: nat, j: nat)
    requires AllIdsFresh(changes) && i < j < |AfterAll(changes)| && SameRut(AfterAll(changes)[i], AfterAll(changes)[j])
    ensures !PlainlySpelled(AfterAll(changes)[i].taxId) || !PlainlySpelled(AfterAll(changes)[j].taxId)
  {
    EveryRunKeepsTaxIdsDistinct(changes);
    OnePlainSpelling(AfterAll(changes), i, j);
  }
}
