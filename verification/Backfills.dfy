/**
 The two backfills that run at every startup: a subscription for every organization without one, and
 a delivery job for every webhook delivery that was never attempted.
 */
module Backfills {
  import opened Wrappers

  datatype Organization = Organization(id: string, planId: string, nextInvoiceNumber: int)

  datatype Subscription = Subscription(organizationId: string, planId: string, status: string, billingPeriod: string,
                                       periodStart: int, periodEnd: int, cancelAtPeriodEnd: bool, version: nat)

  datatype Delivery = Delivery(id: string, organizationId: string, status: string, attemptedAt: Option<int>)

  datatype Job = Job(organizationId: string, jobType: string, deliveryId: string, status: string, queue: string,
                     maxAttempts: nat, availableAt: int, idempotencyKey: Option<string>)

  // ---------------------------------------------------------------- filling in what is missing

  /** The candidates whose key is not there yet, in order. */
  function Missing(candidates: seq<string>, present: set<string>): (r: seq<string>)
    ensures forall i :: 0 <= i < |r| ==> r[i] !in present
  {
    if candidates == [] then []
    else
      var last := candidates[|candidates| - 1];
      Missing(candidates[..|candidates| - 1], present) + if last in present then [] else [last]
  }

  function KeySet(keys: seq<string>): set<string> {
    set i | 0 <= i < |keys| :: keys[i]
  }

  ghost predicate AllDifferent(keys: seq<string>) {
    forall i, j :: 0 <= i < j < |keys| ==> keys[i] != keys[j]
  }

  lemma {:induction false} MissingOnce(candidates: seq<string>, present: set<string>, key: string)
    requires AllDifferent(candidates)
    ensures multiset(Missing(candidates, present))[key] == if key in candidates && key !in present then 1 else 0
  {
    if candidates != [] {
      var front, last := candidates[..|candidates| - 1], candidates[|candidates| - 1];
      MissingOnce(front, present, key);
      assert candidates == front + [last];
      assert last !in front;
    }
  }

  /** Filling in gives each missing candidate one key and leaves the number of every other key as it was. */
  lemma {:induction false} FilledKeys(candidates: seq<string>, keys: seq<string>, key: string)
    requires AllDifferent(candidates)
    ensures var filled := keys + Missing(candidates, KeySet(keys));
            multiset(filled)[key] == if key in candidates && key !in keys then 1 else multiset(keys)[key]
  {
    MissingOnce(candidates, KeySet(keys), key);
    assert key in KeySet(keys) <==> key in keys;
  }

  lemma {:induction false} NothingMissing(candidates: seq<string>, present: set<string>)
    requires forall i :: 0 <= i < |candidates| ==> candidates[i] in present
    ensures Missing(candidates, present) == []
  {
    if candidates != [] {
      NothingMissing(candidates[..|candidates| - 1], present);
    }
  }

  /** Filling in twice adds nothing the second time. */
  lemma {:induction false} FilledIsFull(candidates: seq<string>, keys: seq<string>)
    requires AllDifferent(candidates)
    ensures Missing(candidates, KeySet(keys + Missing(candidates, KeySet(keys)))) == []
  {
    var filled := keys + Missing(candidates, KeySet(keys));
    forall i | 0 <= i < |candidates|
      ensures candidates[i] in KeySet(filled)
    {
      FilledKeys(candidates, keys, candidates[i]);
      assert candidates[i] in multiset(filled);
      assert candidates[i] in filled;
    }
    NothingMissing(candidates, KeySet(filled));
  }

  // ---------------------------------------------------------------- subscriptions

  function OrganizationIds(organizations: seq<Organization>): (ids: seq<string>)
    ensures |ids| == |organizations| && forall i :: 0 <= i < |ids| ==> ids[i] == organizations[i].id
  {
    seq(|organizations|, i requires 0 <= i < |organizations| => organizations[i].id)
  }

  function Owners(subscriptions: seq<Subscription>): (ids: seq<string>)
    ensures |ids| == |subscriptions| && forall i :: 0 <= i < |ids| ==> ids[i] == subscriptions[i].organizationId
  {
    seq(|subscriptions|, i requires 0 <= i < |subscriptions| => subscriptions[i].organizationId)
  }

  /** What an organization without a subscription is given. */
  predicate FreshSubscription(s: Subscription, organization: Organization, now: int) {
    s == Subscription(organization.id, organization.planId, "active", "monthly", now, now + 30 * 86400, false, 1)
  }

  /** The organizations the LEFT JOIN leaves without a partner, in order. */
  function Unsubscribed(organizations: seq<Organization>, owners: set<string>): (r: seq<Organization>)
    ensures OrganizationIds(r) == Missing(OrganizationIds(organizations), owners)
    ensures forall i :: 0 <= i < |r| ==> r[i] in organizations
  {
    if organizations == [] then []
    else
      var front, last := organizations[..|organizations| - 1], organizations[|organizations| - 1];
      var r := Unsubscribed(front, owners);
      assert OrganizationIds(organizations)[..|front|] == OrganizationIds(front);
      if last.id in owners then r else
        assert OrganizationIds(r + [last]) == OrganizationIds(r) + [last.id];
        r + [last]
  }

  // ---------------------------------------------------------------- delivery jobs

  predicate NeverAttempted(d: Delivery) {
    d.status == "pending" && d.attemptedAt.None?
  }

  function Waiting(deliveries: seq<Delivery>): (r: seq<Delivery>)
    ensures forall i :: 0 <= i < |r| ==> r[i] in deliveries && NeverAttempted(r[i])
  {
    if deliveries == [] then []
    else
      var last := deliveries[|deliveries| - 1];
      Waiting(deliveries[..|deliveries| - 1]) + if NeverAttempted(last) then [last] else []
  }

  function DeliveryKey(id: string): string {
    "webhook-delivery:" + id
  }

  function DeliveryKeys(deliveries: seq<Delivery>): (keys: seq<string>)
    ensures |keys| == |deliveries| && forall i :: 0 <= i < |keys| ==> keys[i] == DeliveryKey(deliveries[i].id)
  {
    seq(|deliveries|, i requires 0 <= i < |deliveries| => DeliveryKey(deliveries[i].id))
  }

  /** The idempotency keys in use; jobs without one never collide. */
  function JobKeys(jobs: seq<Job>): seq<string> {
    if jobs == [] then []
    else
      var last := jobs[|jobs| - 1].idempotencyKey;
      JobKeys(jobs[..|jobs| - 1]) + if last.Some? then [last.value] else []
  }

  predicate FreshJob(job: Job, delivery: Delivery, now: int) {
    job == Job(delivery.organizationId, "webhook.deliver", delivery.id, "pending", "default", 5, now, Some(DeliveryKey(delivery.id)))
  }

  ghost predicate DistinctDeliveries(deliveries: seq<Delivery>) {
    forall i, j :: 0 <= i < j < |deliveries| ==> deliveries[i].id != deliveries[j].id
  }

  lemma {:induction false} KeysDiffer(a: string, b: string)
    requires a != b
    ensures DeliveryKey(a) != DeliveryKey(b)
  {
    assert DeliveryKey(a)[|"webhook-delivery:"|..] == a && DeliveryKey(b)[|"webhook-delivery:"|..] == b;
  }

  lemma {:induction false} WaitingDiffer(deliveries: seq<Delivery>)
    requires DistinctDeliveries(deliveries)
    ensures DistinctDeliveries(Waiting(deliveries))
  {
    if deliveries != [] {
      var front, last := deliveries[..|deliveries| - 1], deliveries[|deliveries| - 1];
      WaitingDiffer(front);
      forall i | 0 <= i < |Waiting(front)|
        ensures Waiting(front)[i].id != last.id
      {
        var j :| 0 <= j < |front| && front[j] == Waiting(front)[i];
        assert deliveries[j].id != last.id;
      }
    }
  }

  lemma {:induction false} WaitingKeysDiffer(deliveries: seq<Delivery>)
    requires DistinctDeliveries(deliveries)
    ensures AllDifferent(DeliveryKeys(Waiting(deliveries)))
  {
    WaitingDiffer(deliveries);
    var rows := Waiting(deliveries);
    forall i, j | 0 <= i < j < |rows|
      ensures DeliveryKeys(rows)[i] != DeliveryKeys(rows)[j]
    {
      KeysDiffer(rows[i].id, rows[j].id);
    }
  }

  lemma {:induction false} JobKeysAppend(jobs: seq<Job>, job: Job)
    ensures JobKeys(jobs + [job]) == JobKeys(jobs) + if job.idempotencyKey.Some? then [job.idempotencyKey.value] else []
  {
    assert (jobs + [job])[..|jobs|] == jobs;
  }

  // ---------------------------------------------------------------- the backfills

  ghost predicate NewFor(s: Subscription, organizations: seq<Organization>, now: int) {
    exists o :: o in organizations && FreshSubscription(s, o, now)
  }

  ghost predicate NewJobFor(job: Job, deliveries: seq<Delivery>, now: int) {
    exists d :: d in deliveries && NeverAttempted(d) && FreshJob(job, d, now)
  }

  ghost predicate NewJobs(jobs: seq<Job>, deliveries: seq<Delivery>, now: int) {
    forall i :: 0 <= i < |jobs| ==> NewJobFor(jobs[i], deliveries, now)
  }

  lemma {:induction false} NewJobsAppend(jobs: seq<Job>, job: Job, deliveries: seq<Delivery>, delivery: Delivery, now: int)
    requires NewJobs(jobs, deliveries, now)
    requires delivery in deliveries && NeverAttempted(delivery) && FreshJob(job, delivery, now)
    ensures NewJobs(jobs + [job], deliveries, now)
  {
    assert NewJobFor(job, deliveries, now);
  }

  /** One pass of the loop over the delivery rows, on the keys alone. */
  lemma {:induction false} MissingStep(candidates: seq<string>, n: nat, present: set<string>)
    requires n < |candidates|
    ensures Missing(candidates[..n + 1], present)
         == Missing(candidates[..n], present) + if candidates[n] in present then [] else [candidates[n]]
  {
    assert candidates[..n + 1][..n] == candidates[..n];
  }

  class Database {
    var organizations: seq<Organization>
    var subscriptions: seq<Subscription>
    var deliveries: seq<Delivery>
    var jobs: seq<Job>

    /** The new rows are appended: what was there is untouched, and each belongs to an organization that had none. */
    method BackfillSubscriptions(now: int) returns (ghost added: seq<Subscription>)
      modifies this`subscriptions
      ensures subscriptions == old(subscriptions) + added
      ensures Owners(added) == Missing(OrganizationIds(organizations), KeySet(Owners(old(subscriptions))))
      ensures forall i :: 0 <= i < |added| ==> NewFor(added[i], organizations, now)
    {
      var rows := Unsubscribed(organizations, KeySet(Owners(subscriptions)));
      added := [];
      for n := 0 to |rows|
        invariant subscriptions == old(subscriptions) + added
        invariant |added| == n && forall i :: 0 <= i < n ==> added[i].organizationId == rows[i].id
        invariant forall i :: 0 <= i < n ==> NewFor(added[i], organizations, now)
      {
        var row := Subscription(rows[n].id, rows[n].planId, "active", "monthly", now, now + 30 * 86400, false, 1);
        assert FreshSubscription(row, rows[n], now);
        subscriptions := subscriptions + [row];
        added := added + [row];
      }
      assert Owners(added) == OrganizationIds(rows);
    }

    /** Existing jobs are untouched; each new one is for a delivery that was never attempted. */
    method BackfillDeliveryJobs(now: int) returns (ghost added: seq<Job>)
      modifies this`jobs
      ensures jobs == old(jobs) + added
      ensures JobKeys(added) == Missing(DeliveryKeys(Waiting(deliveries)), KeySet(JobKeys(old(jobs))))
      ensures NewJobs(added, deliveries, now)
    {
      var rows := Waiting(deliveries);
      var existingKeys := KeySet(JobKeys(jobs));
      ghost var candidates := DeliveryKeys(rows);
      added := [];
      for n := 0 to |rows|
        invariant jobs == old(jobs) + added
        invariant JobKeys(added) == Missing(candidates[..n], existingKeys)
        invariant NewJobs(added, deliveries, now)
      {
        MissingStep(candidates, n, existingKeys);
        var key := DeliveryKey(rows[n].id);
        if key in existingKeys {
          continue;
        }
        var job := Job(rows[n].organizationId, "webhook.deliver", rows[n].id, "pending", "default", 5, now, Some(key));
        NewJobsAppend(added, job, deliveries, rows[n], now);
        JobKeysAppend(added, job);
        jobs := jobs + [job];
        added := added + [job];
      }
      assert candidates[..|rows|] == candidates;
    }
  }

  // ---------------------------------------------------------------- what they leave behind

  lemma {:induction false} JobKeysConcat(jobs: seq<Job>, more: seq<Job>)
    ensures JobKeys(jobs + more) == JobKeys(jobs) + JobKeys(more)
  {
    if more == [] {
      assert jobs + more == jobs;
    } else {
      var front, last := more[..|more| - 1], more[|more| - 1];
      JobKeysConcat(jobs, front);
      assert (jobs + more)[..|jobs + more| - 1] == jobs + front;
    }
  }

  /**
   After the backfill every organization has a subscription: exactly one unless it already had several,
   which the UNIQUE constraint on the column excludes; nobody else's count changes.
   */
  lemma {:induction false} EveryOrganizationIsSubscribed(organizations: seq<Organization>, before: seq<Subscription>,
                                                         added: seq<Subscription>, id: string)
    requires AllDifferent(OrganizationIds(organizations))
    requires Owners(added) == Missing(OrganizationIds(organizations), KeySet(Owners(before)))
    ensures multiset(Owners(before + added))[id]
         == if id in OrganizationIds(organizations) && id !in Owners(before) then 1 else multiset(Owners(before))[id]
  {
    assert Owners(before + added) == Owners(before) + Owners(added);
    FilledKeys(OrganizationIds(organizations), Owners(before), id);
  }

  /** A second run finds no organization to subscribe. */
  lemma {:induction false} SecondSubscriptionRunAddsNothing(organizations: seq<Organization>, before: seq<Subscription>,
                                                            added: seq<Subscription>, again: seq<Subscription>)
    requires AllDifferent(OrganizationIds(organizations))
    requires Owners(added) == Missing(OrganizationIds(organizations), KeySet(Owners(before)))
    requires Owners(again) == Missing(OrganizationIds(organizations), KeySet(Owners(before + added)))
    ensures again == []
  {
    assert Owners(before + added) == Owners(before) + Owners(added);
    FilledIsFull(OrganizationIds(organizations), Owners(before));
    assert |again| == |Owners(again)| == 0;
  }

  /**
   After the backfill every delivery that was never attempted has exactly one job under its key (as many
   as before, if it had any), and no other key gains or loses a job.
   */
  lemma {:induction false} EveryWaitingDeliveryHasAJob(deliveries: seq<Delivery>, before: seq<Job>, added: seq<Job>, key: string)
    requires DistinctDeliveries(deliveries)
    requires JobKeys(added) == Missing(DeliveryKeys(Waiting(deliveries)), KeySet(JobKeys(before)))
    ensures multiset(JobKeys(before + added))[key]
         == if key in DeliveryKeys(Waiting(deliveries)) && key !in JobKeys(before) then 1 else multiset(JobKeys(before))[key]
  {
    WaitingKeysDiffer(deliveries);
    JobKeysConcat(before, added);
    FilledKeys(DeliveryKeys(Waiting(deliveries)), JobKeys(before), key);
  }

  lemma {:induction false} NewJobsAreKeyed(jobs: seq<Job>, deliveries: seq<Delivery>, now: int)
    requires NewJobs(jobs, deliveries, now)
    ensures |JobKeys(jobs)| == |jobs|
  {
    if jobs != [] {
      NewJobsAreKeyed(jobs[..|jobs| - 1], deliveries, now);
      assert NewJobFor(jobs[|jobs| - 1], deliveries, now);
    }
  }

  /** A second run, at any later time, enqueues nothing. */
  lemma {:induction false} SecondJobRunAddsNothing(deliveries: seq<Delivery>, before: seq<Job>, added: seq<Job>,
                                                   again: seq<Job>, later: int)
    requires DistinctDeliveries(deliveries)
    requires JobKeys(added) == Missing(DeliveryKeys(Waiting(deliveries)), KeySet(JobKeys(before)))
    requires JobKeys(again) == Missing(DeliveryKeys(Waiting(deliveries)), KeySet(JobKeys(before + added)))
    requires NewJobs(again, deliveries, later)
    ensures again == []
  {
    WaitingKeysDiffer(deliveries);
    JobKeysConcat(before, added);
    FilledIsFull(DeliveryKeys(Waiting(deliveries)), JobKeys(before));
    NewJobsAreKeyed(again, deliveries, later);
  }

  // ---------------------------------------------------------------- the new rows, field by field

  lemma {:induction false} MissingIff(candidates: seq<string>, present: set<string>, key: string)
    ensures key in Missing(candidates, present) <==> key in candidates && key !in present
  {
    if candidates != [] {
      var front, last := candidates[..|candidates| - 1], candidates[|candidates| - 1];
      MissingIff(front, present, key);
      assert candidates == front + [last];
    }
  }

  lemma {:induction false} WaitingIff(deliveries: seq<Delivery>, d: Delivery)
    ensures d in Waiting(deliveries) <==> d in deliveries && d.status == "pending" && d.attemptedAt.None?
  {
    if deliveries != [] {
      var front, last := deliveries[..|deliveries| - 1], deliveries[|deliveries| - 1];
      WaitingIff(front, d);
      assert deliveries == front + [last];
    }
  }

  /** Some job has this idempotency key. */
  predicate HasKey(jobs: seq<Job>, key: string) {
    exists i :: 0 <= i < |jobs| && jobs[i].idempotencyKey == Some(key)
  }

  lemma {:induction false} JobKeysIff(jobs: seq<Job>, key: string)
    ensures key in JobKeys(jobs) <==> HasKey(jobs, key)
  {
    if jobs != [] {
      JobKeysIff(jobs[..|jobs| - 1], key);
      assert forall i :: 0 <= i < |jobs| - 1 ==> jobs[..|jobs| - 1][i] == jobs[i];
    }
  }

  /** The job a never-attempted delivery is given. */
  predicate IsJobOf(job: Job, d: Delivery, now: int) {
    && job.organizationId == d.organizationId && job.deliveryId == d.id && job.idempotencyKey == Some("webhook-delivery:" + d.id)
    && job.jobType == "webhook.deliver" && job.status == "pending" && job.queue == "default"
    && job.maxAttempts == 5 && job.availableAt == now
  }

  /** The delivery is still to be sent for the first time, and no job is there to do it. */
  predicate LacksJob(d: Delivery, jobs: seq<Job>) {
    d.status == "pending" && d.attemptedAt.None? && !HasKey(jobs, "webhook-delivery:" + d.id)
  }

  lemma {:induction false} LacksJobIff(deliveries: seq<Delivery>, d: Delivery, before: seq<Job>)
    requires DistinctDeliveries(deliveries) && d in deliveries
    ensures DeliveryKey(d.id) in Missing(DeliveryKeys(Waiting(deliveries)), KeySet(JobKeys(before))) <==> LacksJob(d, before)
  {
    var keys := DeliveryKeys(Waiting(deliveries));
    MissingIff(keys, KeySet(JobKeys(before)), DeliveryKey(d.id));
    JobKeysIff(before, DeliveryKey(d.id));
    assert DeliveryKey(d.id) in KeySet(JobKeys(before)) <==> DeliveryKey(d.id) in JobKeys(before);
    WaitingIff(deliveries, d);
    WaitingKeyIff(deliveries, d);
  }

  lemma {:induction false} WaitingKeyIff(deliveries: seq<Delivery>, d: Delivery)
    requires DistinctDeliveries(deliveries) && d in deliveries
    ensures DeliveryKey(d.id) in DeliveryKeys(Waiting(deliveries)) <==> d in Waiting(deliveries)
  {
    var rows := Waiting(deliveries);
    if d in rows {
      var i :| 0 <= i < |rows| && rows[i] == d;
      assert DeliveryKeys(rows)[i] == DeliveryKey(d.id);
    }
    if DeliveryKey(d.id) in DeliveryKeys(rows) {
      var i :| 0 <= i < |rows| && DeliveryKeys(rows)[i] == DeliveryKey(d.id);
      if rows[i].id != d.id {
        KeysDiffer(rows[i].id, d.id);
      }
      SameDelivery(deliveries, rows[i], d);
    }
  }

  lemma {:induction false} SameDelivery(deliveries: seq<Delivery>, d: Delivery, e: Delivery)
    requires DistinctDeliveries(deliveries) && d in deliveries && e in deliveries && d.id == e.id
    ensures d == e
  {
  }

  lemma {:induction false} NewJobIsJobOf(job: Job, deliveries: seq<Delivery>, now: int) returns (d: Delivery)
    requires NewJobFor(job, deliveries, now)
    ensures d in deliveries && IsJobOf(job, d, now)
  {
    d :| d in deliveries && NeverAttempted(d) && FreshJob(job, d, now);
  }

  lemma {:induction false} KeyInNewJobs(jobs: seq<Job>, deliveries: seq<Delivery>, now: int, d: Delivery)
    requires NewJobs(jobs, deliveries, now) && DistinctDeliveries(deliveries) && d in deliveries
    ensures HasKey(jobs, DeliveryKey(d.id)) <==> exists i :: 0 <= i < |jobs| && IsJobOf(jobs[i], d, now)
  {
    if i :| 0 <= i < |jobs| && jobs[i].idempotencyKey == Some(DeliveryKey(d.id)) {
      var e := NewJobIsJobOf(jobs[i], deliveries, now);
      if e.id != d.id {
        KeysDiffer(e.id, d.id);
      }
      SameDelivery(deliveries, e, d);
    }
  }

  /**
   Which deliveries get a job and what it holds: every new job is that of some delivery, and a delivery
   gets one exactly if it is pending, was never attempted and no job was there under its key.
   */
  lemma {:induction false} NewJobsAre(deliveries: seq<Delivery>, before: seq<Job>, added: seq<Job>, now: int)
    requires DistinctDeliveries(deliveries)
    requires JobKeys(added) == Missing(DeliveryKeys(Waiting(deliveries)), KeySet(JobKeys(before)))
    requires NewJobs(added, deliveries, now)
    ensures forall i :: 0 <= i < |added| ==> exists d :: d in deliveries && IsJobOf(added[i], d, now)
    ensures forall d :: d in deliveries ==>
              ((exists i :: 0 <= i < |added| && IsJobOf(added[i], d, now)) <==> LacksJob(d, before))
  {
    forall i | 0 <= i < |added|
      ensures exists d :: d in deliveries && IsJobOf(added[i], d, now)
    {
      assert NewJobFor(added[i], deliveries, now);
      var d := NewJobIsJobOf(added[i], deliveries, now);
    }
    forall d | d in deliveries
      ensures (exists i :: 0 <= i < |added| && IsJobOf(added[i], d, now)) <==> LacksJob(d, before)
    {
      LacksJobIff(deliveries, d, before);
      JobKeysIff(added, DeliveryKey(d.id));
      KeyInNewJobs(added, deliveries, now, d);
    }
  }

  /** The subscription an organization without one is given: its own plan, monthly, active, thirty days from now. */
  predicate IsSubscriptionOf(s: Subscription, o: Organization, now: int) {
    && s.organizationId == o.id && s.planId == o.planId && s.status == "active" && s.billingPeriod == "monthly"
    && s.periodStart == now && s.periodEnd == now + 2592000 && !s.cancelAtPeriodEnd && s.version == 1
  }

  lemma {:induction false} NewSubscriptionIs(s: Subscription, organizations: seq<Organization>, now: int) returns (o: Organization)
    requires NewFor(s, organizations, now)
    ensures o in organizations && IsSubscriptionOf(s, o, now)
  {
    o :| o in organizations && FreshSubscription(s, o, now);
  }

  /** Some subscription belongs to this organization. */
  predicate IsSubscribed(subscriptions: seq<Subscription>, id: string) {
    exists i :: 0 <= i < |subscriptions| && subscriptions[i].organizationId == id
  }

  lemma {:induction false} OwnersIff(subscriptions: seq<Subscription>, id: string)
    ensures id in Owners(subscriptions) <==> IsSubscribed(subscriptions, id)
  {
    if i :| 0 <= i < |subscriptions| && subscriptions[i].organizationId == id {
      assert Owners(subscriptions)[i] == id;
    }
  }

  lemma {:induction false} SameOrganization(organizations: seq<Organization>, o: Organization, p: Organization)
    requires AllDifferent(OrganizationIds(organizations)) && o in organizations && p in organizations && o.id == p.id
    ensures o == p
  {
    var i :| 0 <= i < |organizations| && organizations[i] == o;
    var j :| 0 <= j < |organizations| && organizations[j] == p;
    var ids := OrganizationIds(organizations);
    assert ids[i] == ids[j];
  }

  /** Which organizations get a subscription and what it holds: exactly those that have none. */
  lemma {:induction false} NewSubscriptionsAre(organizations: seq<Organization>, before: seq<Subscription>,
                                               added: seq<Subscription>, now: int)
    requires AllDifferent(OrganizationIds(organizations))
    requires Owners(added) == Missing(OrganizationIds(organizations), KeySet(Owners(before)))
    requires forall i :: 0 <= i < |added| ==> NewFor(added[i], organizations, now)
    ensures forall i :: 0 <= i < |added| ==> exists o :: o in organizations && IsSubscriptionOf(added[i], o, now)
    ensures forall o :: o in organizations ==>
              ((exists i :: 0 <= i < |added| && IsSubscriptionOf(added[i], o, now)) <==> !IsSubscribed(before, o.id))
  {
    forall i | 0 <= i < |added|
      ensures exists o :: o in organizations && IsSubscriptionOf(added[i], o, now)
    {
      var o := NewSubscriptionIs(added[i], organizations, now);
    }
    forall o | o in organizations
      ensures (exists i :: 0 <= i < |added| && IsSubscriptionOf(added[i], o, now)) <==> !IsSubscribed(before, o.id)
    {
      SubscribedIff(organizations, before, added, now, o);
    }
  }

  lemma {:induction false} SubscribedIff(organizations: seq<Organization>, before: seq<Subscription>, added: seq<Subscription>,
                                         now: int, o: Organization)
    requires AllDifferent(OrganizationIds(organizations)) && o in organizations
    requires Owners(added) == Missing(OrganizationIds(organizations), KeySet(Owners(before)))
    requires forall i :: 0 <= i < |added| ==> NewFor(added[i], organizations, now)
    ensures (exists i :: 0 <= i < |added| && IsSubscriptionOf(added[i], o, now)) <==> !IsSubscribed(before, o.id)
  {
    var ids := OrganizationIds(organizations);
    var at :| 0 <= at < |organizations| && organizations[at] == o;
    assert ids[at] == o.id;
    MissingIff(ids, KeySet(Owners(before)), o.id);
    OwnersIff(before, o.id);
    OwnersIff(added, o.id);
    assert o.id in KeySet(Owners(before)) <==> o.id in Owners(before);
    if i :| 0 <= i < |added| && added[i].organizationId == o.id {
      var p := NewSubscriptionIs(added[i], organizations, now);
      SameOrganization(organizations, o, p);
    }
  }
}
