/**
 Counting consecutive denials per principal, and the quarantine records they lead to.

 The gateway and the tool server each keep counters of their own over one list of records.
 */
module Quarantine {
  import opened Wrappers

  datatype Status = Active | Released

  datatype Record = Record(principal: string, status: Status, automatic: bool)

  const LIMIT := 3

  predicate IsSafeChar(c: char) {
    || 'a' <= c <= 'z' || 'A' <= c <= 'Z' || '0' <= c <= '9'
    || c == '.' || c == '_' || c == '@' || c == ':' || c == '/' || c == '-'
  }

  predicate IsSafePrincipal(p: string) {
    1 <= |p| <= 256 && forall i | 0 <= i < |p| :: IsSafeChar(p[i])
  }

  predicate IsExempt(p: string) {
    p == "" || p == "sb:issuer:test" || p == "mcp-agent@fidusgate.internal"
  }

  /** The principals whose denials are counted. */
  predicate IsCounted(p: string) {
    !IsExempt(p) && IsSafePrincipal(p)
  }

  // ---------- what each operation makes of the records ----------

  function IndexOf(records: seq<Record>, p: string): (i: nat)
    ensures i <= |records|
    ensures i < |records| ==> records[i].principal == p
    ensures forall k | 0 <= k < i :: records[k].principal != p
  {
    if records == [] || records[0].principal == p then 0 else 1 + IndexOf(records[1..], p)
  }

  predicate HasActive(records: seq<Record>, p: string) {
    exists i | 0 <= i < |records| :: records[i].principal == p && records[i].status == Active
  }

  function Upsert(records: seq<Record>, r: Record): seq<Record> {
    var i := IndexOf(records, r.principal);
    if i < |records| then records[i := r] else [r] + records
  }

  function Release(records: seq<Record>, p: string): seq<Record> {
    var i := IndexOf(records, p);
    if i < |records| then records[i := records[i].(status := Released)] else records
  }

  function CountOf(counts: map<string, nat>, p: string): nat {
    if p in counts then counts[p] else 0
  }

  datatype Site = Gateway | ToolServer

  datatype State = State(gateway: map<string, nat>, toolServer: map<string, nat>, records: seq<Record>)

  datatype Event =
    | Denied(site: Site, p: string)
    | Allowed(site: Site, p: string)
    | Quarantined(p: string)
    | ReleasedBy(p: string)

  function Counts(s: State, site: Site): map<string, nat> {
    if site.Gateway? then s.gateway else s.toolServer
  }

  function WithCounts(s: State, site: Site, counts: map<string, nat>): State {
    if site.Gateway? then s.(gateway := counts) else s.(toolServer := counts)
  }

  function DenyCounts(counts: map<string, nat>, p: string): map<string, nat> {
    if !IsCounted(p) then counts
    else if CountOf(counts, p) + 1 < LIMIT then counts[p := CountOf(counts, p) + 1]
    else counts - {p}
  }

  function DenyRecords(counts: map<string, nat>, records: seq<Record>, p: string): seq<Record> {
    if IsCounted(p) && CountOf(counts, p) + 1 >= LIMIT && !HasActive(records, p)
    then Upsert(records, Record(p, Active, true))
    else records
  }

  function AllowCounts(counts: map<string, nat>, p: string): map<string, nat> {
    if IsSafePrincipal(p) then counts - {p} else counts
  }

  function Step(s: State, e: Event): State {
    match e
    case Denied(site, p) =>
      WithCounts(s, site, DenyCounts(Counts(s, site), p)).(records := DenyRecords(Counts(s, site), s.records, p))
    case Allowed(site, p) => WithCounts(s, site, AllowCounts(Counts(s, site), p))
    case Quarantined(p) => s.(records := Upsert(s.records, Record(p, Active, false)))
    case ReleasedBy(p) => s.(records := Release(s.records, p))
  }

  function Run(events: seq<Event>): State {
    if events == [] then State(map[], map[], []) else Step(Run(events[..|events| - 1]), events[|events| - 1])
  }

  // ---------- the store and the counters ----------

  class RecordStore {
    var records: seq<Record>

    constructor ()
      ensures records == []
    {
      records := [];
    }

    method FindRecord(p: string) returns (i: nat)
      ensures i == IndexOf(records, p)
    {
      i := 0;
      while i < |records| && records[i].principal != p
        invariant i <= |records|
        invariant forall k | 0 <= k < i :: records[k].principal != p
      {
        i := i + 1;
      }
    }

    /** `getQuarantineRecord`: whether there is an active record. */
    method IsQuarantined(p: string) returns (active: bool)
      ensures active == HasActive(records, p)
    {
      for i := 0 to |records|
        invariant forall k | 0 <= k < i :: !(records[k].principal == p && records[k].status == Active)
      {
        if records[i].principal == p && records[i].status == Active {
          return true;
        }
      }
      active := false;
    }

    method QuarantinePrincipal(r: Record)
      modifies this
      ensures records == Upsert(old(records), r)
    {
      var i := FindRecord(r.principal);
      if i < |records| {
        records := records[i := r];
      } else {
        records := [r] + records;
      }
    }

    method ReleaseQuarantine(p: string) returns (found: bool)
      modifies this
      ensures records == Release(old(records), p)
      ensures found == (IndexOf(old(records), p) < |old(records)|)
    {
      var i := FindRecord(p);
      found := i < |records|;
      if found {
        records := records[i := records[i].(status := Released)];
      }
    }
  }

  /** The counters of one of the two programs. */
  class ViolationGate {
    const store: RecordStore
    var counts: map<string, nat>

    constructor (store: RecordStore)
      ensures this.store == store && counts == map[]
    {
      this.store := store;
      counts := map[];
    }

    /** `recordPrincipalViolation`; `ok` is false where it throws on a malformed principal. */
    method RecordPrincipalViolation(p: string) returns (ok: bool)
      modifies this, store
      ensures counts == DenyCounts(old(counts), p)
      ensures store.records == DenyRecords(old(counts), old(store.records), p)
      ensures ok <==> IsExempt(p) || IsSafePrincipal(p)
    {
      if IsExempt(p) {
        return true;
      }
      if !IsSafePrincipal(p) {
        return false;
      }
      counts := counts[p := (if p in counts then counts[p] else 0) + 1];
      if counts[p] >= LIMIT {
        var existing := store.IsQuarantined(p);
        if !existing {
          store.QuarantinePrincipal(Record(p, Active, true));
        }
        counts := counts - {p};
      }
      ok := true;
    }

    method ResetPrincipalViolations(p: string)
      modifies this
      ensures counts == AllowCounts(old(counts), p)
    {
      if IsSafePrincipal(p) {
        counts := counts - {p};
      }
    }
  }

  // ---------- the history of one principal ----------

  /** Denials of `p` at a site after its last allow there. */
  function DenialsSinceAllow(events: seq<Event>, site: Site, p: string): nat {
    if events == [] then 0
    else
      var n := |events| - 1;
      if events[n] == Allowed(site, p) then 0
      else DenialsSinceAllow(events[..n], site, p) + (if events[n] == Denied(site, p) then 1 else 0)
  }

  /** The event at `i` puts `p` into quarantine: a manual quarantine, or a third denial in a row at one site. */
  ghost predicate Triggers(events: seq<Event>, i: nat, p: string)
    requires i < |events|
  {
    || events[i] == Quarantined(p)
    || exists site ::
         events[i] == Denied(site, p) && IsCounted(p) && DenialsSinceAllow(events[..i + 1], site, p) % LIMIT == 0
  }

  /** ... and `p` was not released after it. */
  ghost predicate TriggeredSinceRelease(events: seq<Event>, p: string) {
    exists i | 0 <= i < |events| :: Triggers(events, i, p) && forall k | i < k < |events| :: events[k] != ReleasedBy(p)
  }

  ghost predicate DistinctPrincipals(records: seq<Record>) {
    forall i, j | 0 <= i < j < |records| :: records[i].principal != records[j].principal
  }

  lemma UpsertMeans(records: seq<Record>, r: Record, p: string)
    requires DistinctPrincipals(records)
    ensures DistinctPrincipals(Upsert(records, r))
    ensures HasActive(Upsert(records, r), p) <==> if p == r.principal then r.status == Active else HasActive(records, p)
  {
    var i, after := IndexOf(records, r.principal), Upsert(records, r);
    if p == r.principal {
      assert after[if i < |records| then i else 0] == r;
    } else if i < |records| {
      assert forall k | 0 <= k < |records| && k != i :: after[k] == records[k];
    } else {
      assert forall k | 0 <= k < |records| :: after[k + 1] == records[k];
    }
  }

  lemma ReleaseMeans(records: seq<Record>, q: string, p: string)
    requires DistinctPrincipals(records)
    ensures DistinctPrincipals(Release(records, q))
    ensures HasActive(Release(records, q), p) <==> p != q && HasActive(records, p)
  {
    var i, after := IndexOf(records, q), Release(records, q);
    if i < |records| {
      assert forall k | 0 <= k < |records| && k != i :: after[k] == records[k];
      assert after[i].principal == q && after[i].status == Released;
    }
  }

  /** One more event: it triggers itself, or an earlier trigger is still unreleased. */
  lemma TriggeredStep(events: seq<Event>, e: Event, p: string)
    ensures TriggeredSinceRelease(events + [e], p) <==>
            || Triggers(events + [e], |events|, p)
            || (TriggeredSinceRelease(events, p) && e != ReleasedBy(p))
  {
    var all := events + [e];
    forall i | 0 <= i < |events| ensures Triggers(all, i, p) <==> Triggers(events, i, p) {
      assert all[..i + 1] == events[..i + 1];
    }
    if TriggeredSinceRelease(all, p) && !Triggers(all, |events|, p) {
      var i :| 0 <= i < |all| && Triggers(all, i, p) && forall k | i < k < |all| :: all[k] != ReleasedBy(p);
      assert all[|events|] == e;
      assert forall k | i < k < |events| :: events[k] == all[k];
    }
    if TriggeredSinceRelease(events, p) && e != ReleasedBy(p) {
      var i :| 0 <= i < |events| && Triggers(events, i, p) && forall k | i < k < |events| :: events[k] != ReleasedBy(p);
      assert Triggers(all, i, p);
    }
  }

  // ---------- main results ----------

  /** Between calls a counter is the denials since the last allow, modulo three: those since the last third one. */
  lemma {:induction false} CounterIsStreak(events: seq<Event>, site: Site, p: string)
    requires IsCounted(p)
    ensures CountOf(Counts(Run(events), site), p) == DenialsSinceAllow(events, site, p) % LIMIT < LIMIT
  {
    if events != [] {
      var before, e := events[..|events| - 1], events[|events| - 1];
      CounterIsStreak(before, site, p);
      CountStep(Run(before), e, site, p);
      StreakStep(CountOf(Counts(Run(before), site), p), DenialsSinceAllow(before, site, p),
                 CountOf(Counts(Run(events), site), p), DenialsSinceAllow(events, site, p),
                 e == Allowed(site, p), e == Denied(site, p));
    }
  }

  lemma StreakStep(c: nat, d: nat, c': nat, d': nat, allowed: bool, denied: bool)
    requires c == d % LIMIT
    requires c' == if allowed then 0 else if !denied then c else if c + 1 >= LIMIT then 0 else c + 1
    requires d' == if allowed then 0 else d + (if denied then 1 else 0)
    ensures c' == d' % LIMIT < LIMIT
  {
    EveryThird(d);
  }

  lemma CountStep(s: State, e: Event, site: Site, p: string)
    requires IsCounted(p)
    ensures var c, c' := CountOf(Counts(s, site), p), CountOf(Counts(Step(s, e), site), p);
            c' ==
              if e == Allowed(site, p) then 0
              else if e != Denied(site, p) then c
              else if c + 1 >= LIMIT then 0
              else c + 1
  {
  }

  lemma {:induction false} OneRecordEach(events: seq<Event>)
    ensures DistinctPrincipals(Run(events).records)
  {
    if events != [] {
      var s, e := Run(events[..|events| - 1]), events[|events| - 1];
      OneRecordEach(events[..|events| - 1]);
      UpsertMeans(s.records, Record(e.p, Active, true), e.p);
      UpsertMeans(s.records, Record(e.p, Active, false), e.p);
      ReleaseMeans(s.records, e.p, e.p);
    }
  }

  /** Whether this event puts `p` into quarantine, seen from the counters before it. */
  predicate Trips(s: State, e: Event, p: string) {
    e == Quarantined(p) || (e.Denied? && e.p == p && IsCounted(p) && CountOf(Counts(s, e.site), p) + 1 >= LIMIT)
  }

  lemma StepActive(s: State, e: Event, p: string)
    requires DistinctPrincipals(s.records)
    ensures HasActive(Step(s, e).records, p) <==> Trips(s, e, p) || (HasActive(s.records, p) && e != ReleasedBy(p))
  {
    match e
    case Denied(_, q) => UpsertMeans(s.records, Record(q, Active, true), p);
    case Allowed(_, _) =>
    case Quarantined(q) => UpsertMeans(s.records, Record(q, Active, false), p);
    case ReleasedBy(q) => ReleaseMeans(s.records, q, p);
  }

  lemma EveryThird(n: nat)
    ensures 0 <= n % LIMIT < LIMIT
    ensures (n + 1) % LIMIT == if n % LIMIT + 1 >= LIMIT then 0 else n % LIMIT + 1
  {
  }

  lemma OneMoreDenial(before: seq<Event>, site: Site, p: string)
    ensures DenialsSinceAllow((before + [Denied(site, p)])[..|before| + 1], site, p) ==
            DenialsSinceAllow(before, site, p) + 1
  {
    var all := before + [Denied(site, p)];
    assert all[..|before| + 1] == all && all[..|before|] == before;
  }

  lemma TripsIffTriggers(s: State, before: seq<Event>, e: Event, p: string)
    requires IsCounted(p) && e.Denied? ==> CountOf(Counts(s, e.site), p) == DenialsSinceAllow(before, e.site, p) % LIMIT
    ensures Trips(s, e, p) <==> Triggers(before + [e], |before|, p)
  {
    if e.Denied? && e.p == p {
      OneMoreDenial(before, e.site, p);
      EveryThird(DenialsSinceAllow(before, e.site, p));
    }
  }

  /**
   An active record exists exactly when a third denial in a row at one of the sites, or a manual quarantine,
   came after the last release.
   */
  lemma {:induction false} QuarantinedIffTriggered(events: seq<Event>, p: string)
    ensures HasActive(Run(events).records, p) <==> TriggeredSinceRelease(events, p)
  {
    if events != [] {
      var before, e := events[..|events| - 1], events[|events| - 1];
      QuarantinedIffTriggered(before, p);
      OneRecordEach(before);
      StepActive(Run(before), e, p);
      if IsCounted(p) && e.Denied? {
        CounterIsStreak(before, e.site, p);
      }
      TripsIffTriggers(Run(before), before, e, p);
      TriggeredStep(before, e, p);
      assert before + [e] == events;
    }
  }
}
