/** Memory-read governance on the dashboard: every exposure of memory to a node is held against
    the durable decision it names, by a loop with several early exits. */
module MemoryReads {
  import opened Wrappers

  // ----- health

  datatype Health = Healthy | Warning | Unknown | Degraded | Critical | Unrecognised(name: string)

  function Rank(h: Health): nat {
    match h
    case Healthy => 0
    case Warning => 1
    case Unknown => 2
    case Degraded => 3
    case Critical => 4
    case Unrecognised(_) => 4
  }

  /** Python's `max(statuses, key=...)`: the first of the highest ranked. */
  function WorstHealth(statuses: seq<Health>): Health {
    if statuses == [] then Unknown
    else if |statuses| == 1 then statuses[0]
    else
      var last := statuses[|statuses| - 1];
      var before := WorstHealth(statuses[..|statuses| - 1]);
      if Rank(last) > Rank(before) then last else before
  }

  /** From best to worst; a name that is not known is as bad as critical. */
  lemma RanksAscend(name: string)
    ensures Rank(Healthy) < Rank(Warning) < Rank(Unknown) < Rank(Degraded) < Rank(Critical) == Rank(Unrecognised(name))
  {
  }

  ghost predicate IsFirstWorst(statuses: seq<Health>, i: int) {
    && 0 <= i < |statuses|
    && (forall j :: 0 <= j < |statuses| ==> Rank(statuses[j]) <= Rank(statuses[i]))
    && (forall j :: 0 <= j < i ==> Rank(statuses[j]) < Rank(statuses[i]))
  }

  lemma {:induction false} WorstHealthIsFirstWorst(statuses: seq<Health>) returns (i: int)
    requires statuses != []
    ensures IsFirstWorst(statuses, i) && statuses[i] == WorstHealth(statuses)
  {
    hide Rank;
    var n := |statuses| - 1;
    if n == 0 {
      return 0;
    }
    var front := statuses[..n];
    i := WorstHealthIsFirstWorst(front);
    assert forall j :: 0 <= j < n ==> front[j] == statuses[j];
    if Rank(statuses[n]) > Rank(front[i]) {
      i := n;
    }
  }

  lemma WorstOfTwo(a: Health, b: Health)
    ensures WorstHealth([a, b]) == if Rank(b) > Rank(a) then b else a
  {
    assert [a, b][..1] == [a];
  }

  // ----- decisions and exposures

  /** Blank and missing run and node ids are both "". */
  datatype Decision = Decision(id: string, run: string, node: string, step: Option<string>, verdict: string)

  /** `Unreadable` payloads parse, but not to an object with object metadata; a payload that does
      not parse counts as an object with nothing in it. */
  datatype Payload = Unreadable | Metadata(node: string, decision: string, step: Option<string>)

  datatype Exposure = Exposure(run: string, payload: Payload)

  predicate Agree(a: string, b: string) {
    a == "" || b == "" || a == b
  }

  predicate AgreeIfGiven(a: Option<string>, b: Option<string>) {
    a.None? || b.None? || a == b
  }

  /** The exposure names no decision on record. */
  predicate Undecided(decisions: map<string, Decision>, e: Exposure)
    requires e.payload.Metadata?
  {
    e.payload.decision == "" || e.payload.decision !in decisions
  }

  /** It names a recorded allow for a compatible run, node and step. */
  predicate BoundToAllow(decisions: map<string, Decision>, e: Exposure)
    requires e.payload.Metadata?
  {
    && e.payload.decision != ""
    && e.payload.decision in decisions
    && var d := decisions[e.payload.decision];
       && d.verdict == "allow"
       && Agree(d.run, e.run)
       && Agree(d.node, e.payload.node)
       && AgreeIfGiven(d.step, e.payload.step)
  }

  /** It names a recorded decision that does not cover it. */
  predicate Mismatched(decisions: map<string, Decision>, e: Exposure)
    requires e.payload.Metadata?
  {
    && e.payload.decision != ""
    && e.payload.decision in decisions
    && var d := decisions[e.payload.decision];
       || d.verdict != "allow"
       || (d.run != "" && e.run != "" && d.run != e.run)
       || (d.node != "" && e.payload.node != "" && d.node != e.payload.node)
       || (d.step.Some? && e.payload.step.Some? && d.step != e.payload.step)
  }

  predicate Readable(events: seq<Exposure>) {
    forall i :: 0 <= i < |events| ==> events[i].payload.Metadata?
  }

  /** The events before the first unreadable one: those the loop gets to classify. */
  function Seen(events: seq<Exposure>): (seen: seq<Exposure>)
    ensures Readable(seen) && seen <= events
    ensures |seen| < |events| ==> events[|seen|].payload.Unreadable?
  {
    if events == [] || events[0].payload.Unreadable? then []
    else [events[0]] + Seen(events[1..])
  }

  function UndecidedAmong(decisions: map<string, Decision>, events: seq<Exposure>): set<nat>
    requires Readable(events)
  {
    set i: nat | i < |events| && Undecided(decisions, events[i])
  }

  function MismatchedAmong(decisions: map<string, Decision>, events: seq<Exposure>): set<nat>
    requires Readable(events)
  {
    set i: nat | i < |events| && Mismatched(decisions, events[i])
  }

  function BoundAmong(decisions: map<string, Decision>, events: seq<Exposure>): set<nat>
    requires Readable(events)
  {
    set i: nat | i < |events| && BoundToAllow(decisions, events[i])
  }

  function ExposedNodes(events: seq<Exposure>): set<string>
    requires Readable(events)
  {
    set i: nat | i < |events| && events[i].payload.node != "" :: events[i].payload.node
  }

  lemma {:induction false} ClassesAddUp(decisions: map<string, Decision>, events: seq<Exposure>)
    requires Readable(events)
    ensures |UndecidedAmong(decisions, events)| + |MismatchedAmong(decisions, events)|
            + |BoundAmong(decisions, events)| == |events|
  {
    hide UndecidedAmong, MismatchedAmong, BoundAmong;
    if events == [] {
      NothingYet(decisions);
    } else {
      var front, last := events[..|events| - 1], events[|events| - 1];
      assert events == front + [last];
      ClassesAddUp(decisions, front);
      OneMore(decisions, front, last);
    }
  }

  /** Every exposure is exactly one of the three, so the counts add up to the number of events. */
  lemma ExposuresPartition(decisions: map<string, Decision>, events: seq<Exposure>)
    requires Readable(events)
    ensures UndecidedAmong(decisions, events) !! MismatchedAmong(decisions, events)
         !! BoundAmong(decisions, events)
    ensures |UndecidedAmong(decisions, events)| + |MismatchedAmong(decisions, events)|
            + |BoundAmong(decisions, events)| == |events|
  {
    ClassesAddUp(decisions, events);
  }

  /** What one more event does to the three classes. */
  lemma OneMore(decisions: map<string, Decision>, events: seq<Exposure>, e: Exposure)
    requires Readable(events) && e.payload.Metadata?
    ensures Readable(events + [e])
    ensures |UndecidedAmong(decisions, events + [e])|
         == |UndecidedAmong(decisions, events)| + if Undecided(decisions, e) then 1 else 0
    ensures |MismatchedAmong(decisions, events + [e])|
         == |MismatchedAmong(decisions, events)| + if Mismatched(decisions, e) then 1 else 0
    ensures |BoundAmong(decisions, events + [e])|
         == |BoundAmong(decisions, events)| + if BoundToAllow(decisions, e) then 1 else 0
  {
    hide Undecided, Mismatched, BoundToAllow;
    var n, longer := |events|, events + [e];
    assert Extends(UndecidedAmong(decisions, events), UndecidedAmong(decisions, longer), n, Undecided(decisions, e));
    assert Extends(MismatchedAmong(decisions, events), MismatchedAmong(decisions, longer), n, Mismatched(decisions, e));
    assert Extends(BoundAmong(decisions, events), BoundAmong(decisions, longer), n, BoundToAllow(decisions, e));
    OneMoreIndex(UndecidedAmong(decisions, events), UndecidedAmong(decisions, longer), n, Undecided(decisions, e));
    OneMoreIndex(MismatchedAmong(decisions, events), MismatchedAmong(decisions, longer), n, Mismatched(decisions, e));
    OneMoreIndex(BoundAmong(decisions, events), BoundAmong(decisions, longer), n, BoundToAllow(decisions, e));
  }

  ghost predicate Extends(before: set<nat>, after: set<nat>, n: nat, hit: bool) {
    && n !in before
    && forall i: nat :: i in after <==> i in before || (i == n && hit)
  }

  lemma OneMoreIndex(before: set<nat>, after: set<nat>, n: nat, hit: bool)
    requires Extends(before, after, n, hit)
    ensures |after| == |before| + if hit then 1 else 0
  {
    assert after == before + if hit then {n} else {};
  }

  lemma OneMoreNode(events: seq<Exposure>, e: Exposure)
    requires Readable(events) && e.payload.Metadata?
    ensures ExposedNodes(events + [e])
         == ExposedNodes(events) + if e.payload.node != "" then {e.payload.node} else {}
  {
    var n, longer := |events|, events + [e];
    assert longer[n] == e;
    forall node | node in ExposedNodes(events) ensures node in ExposedNodes(longer) {
      var i: nat :| i < n && events[i].payload.node == node && node != "";
      assert longer[i].payload.node == node;
    }
  }

  lemma NothingYet(decisions: map<string, Decision>)
    ensures UndecidedAmong(decisions, []) == MismatchedAmong(decisions, []) == BoundAmong(decisions, []) == {}
    ensures ExposedNodes([]) == {}
  {
  }

  // ----- the collector

  datatype Status = Status(
    enabled: bool,
    lookupFailed: bool,
    requested: nat,
    allowed: nat,
    denied: nat,
    decisionCount: nat,
    withoutDecision: nat,
    mismatch: nat,
    nodes: set<string>,
    health: Health)

  /** the table as a dictionary: a later row with the same id replaces an earlier one */
  function Recorded(rows: seq<Decision>): map<string, Decision> {
    if rows == [] then map[]
    else Recorded(rows[..|rows| - 1])[rows[|rows| - 1].id := rows[|rows| - 1]]
  }

  function WithVerdict(rows: seq<Decision>, verdict: string): nat {
    if rows == [] then 0
    else WithVerdict(rows[..|rows| - 1], verdict)
         + if rows[|rows| - 1].verdict == verdict then 1 else 0
  }

  lemma {:induction false} VerdictsAmongDecisions(rows: seq<Decision>)
    ensures WithVerdict(rows, "allow") + WithVerdict(rows, "deny") <= |rows|
  {
    if rows != [] {
      VerdictsAmongDecisions(rows[..|rows| - 1]);
    }
  }

  /** A decision id that occurs once in the table is looked up as that row. */
  lemma {:induction false} RecordedFinds(rows: seq<Decision>, i: nat)
    requires i < |rows|
    requires forall j :: 0 <= j < |rows| && rows[j].id == rows[i].id ==> j == i
    ensures rows[i].id in Recorded(rows) && Recorded(rows)[rows[i].id] == rows[i]
  {
    if i < |rows| - 1 {
      assert rows[|rows| - 1].id != rows[i].id;
      RecordedFinds(rows[..|rows| - 1], i);
    }
  }

  method ReadDecisions(rows: seq<Decision>)
    returns (decisions: map<string, Decision>, allowed: nat, denied: nat)
    ensures decisions == Recorded(rows)
    ensures allowed == WithVerdict(rows, "allow") && denied == WithVerdict(rows, "deny")
  {
    decisions, allowed, denied := map[], 0, 0;
    for i := 0 to |rows|
      invariant decisions == Recorded(rows[..i])
      invariant allowed == WithVerdict(rows[..i], "allow")
      invariant denied == WithVerdict(rows[..i], "deny")
    {
      assert rows[..i + 1][..i] == rows[..i];
      decisions := decisions[rows[i].id := rows[i]];
      if rows[i].verdict == "allow" {
        allowed := allowed + 1;
      } else if rows[i].verdict == "deny" {
        denied := denied + 1;
      }
    }
    assert rows[..|rows|] == rows;
  }

  lemma {:induction false} SeenUntil(events: seq<Exposure>, k: nat)
    requires k <= |events| && Readable(events[..k])
    requires k < |events| ==> events[k].payload.Unreadable?
    ensures Seen(events) == events[..k]
  {
    if k > 0 {
      assert events[..k][0] == events[0];
      assert events[1..][..k - 1] == events[..k][1..];
      SeenUntil(events[1..], k - 1);
    }
  }

  /** The exposure loop. Each early `continue` of the original is one branch here. */
  method ClassifyExposures(decisions: map<string, Decision>, events: seq<Exposure>)
    returns (withoutDecision: nat, mismatch: nat, nodes: set<string>, failed: bool)
    ensures withoutDecision == |UndecidedAmong(decisions, Seen(events))|
    ensures mismatch == |MismatchedAmong(decisions, Seen(events))|
    ensures nodes == ExposedNodes(Seen(events))
    ensures failed <==> !Readable(events)
  {
    hide UndecidedAmong, MismatchedAmong, ExposedNodes, Seen;
    withoutDecision, mismatch, nodes, failed := 0, 0, {}, false;
    NothingYet(decisions);
    var i := 0;
    while i < |events|
      invariant 0 <= i <= |events|
      invariant Readable(events[..i])
      invariant withoutDecision == |UndecidedAmong(decisions, events[..i])|
      invariant mismatch == |MismatchedAmong(decisions, events[..i])|
      invariant nodes == ExposedNodes(events[..i])
      invariant !failed
    {
      var e := events[i];
      if e.payload.Unreadable? {
        SeenUntil(events, i);
        failed := true;
        return;
      }
      OneMore(decisions, events[..i], e);
      OneMoreNode(events[..i], e);
      assert events[..i + 1] == events[..i] + [e];
      i := i + 1;
      if e.payload.node != "" {
        nodes := nodes + {e.payload.node};
      }
      var did := e.payload.decision;
      if did == "" {
        withoutDecision := withoutDecision + 1;
        continue;
      }
      if !(did in decisions && decisions[did].verdict == "allow") {
        if did in decisions {
          mismatch := mismatch + 1;
        } else {
          withoutDecision := withoutDecision + 1;
        }
        continue;
      }
      var durable := decisions[did];
      if durable.node != "" && e.payload.node != "" && durable.node != e.payload.node {
        mismatch := mismatch + 1;
        continue;
      }
      if durable.step.Some? && e.payload.step.Some? && durable.step != e.payload.step {
        mismatch := mismatch + 1;
        continue;
      }
      if durable.run != "" && e.run != "" && durable.run != e.run {
        mismatch := mismatch + 1;
        continue;
      }
    }
    assert events[..|events|] == events;
    SeenUntil(events, |events|);
  }

  /** The tables of a state manager that is there: decisions and exposure events. */
  datatype Database = Database(rows: seq<Decision>, events: seq<Exposure>)

  const NOT_ENABLED := Status(false, false, 0, 0, 0, 0, 0, 0, {}, Healthy)

  /** Without a state manager nothing is counted, and that is no failed lookup. */
  method CollectMemoryReads(database: Option<Database>) returns (status: Status)
    ensures database.None? ==> status == NOT_ENABLED
    ensures status.enabled <==> database.Some? && Readable(database.value.events)
    ensures status.lookupFailed <==> database.Some? && !Readable(database.value.events)
    ensures database.Some? ==>
              var rows, decisions := database.value.rows, Recorded(database.value.rows);
              var seen := Seen(database.value.events);
              && status.withoutDecision == |UndecidedAmong(decisions, seen)|
              && status.mismatch == |MismatchedAmong(decisions, seen)|
              && status.nodes == ExposedNodes(seen)
              && (status.health == Critical <==>
                    exists i :: 0 <= i < |seen| && !BoundToAllow(decisions, seen[i]))
              && status.allowed == WithVerdict(rows, "allow") && status.denied == WithVerdict(rows, "deny")
              && status.decisionCount == |rows|
              && status.requested == (if status.enabled then status.allowed + status.denied else 0)
    ensures status.health != Critical ==>
              status.health == if status.denied > 0 then Warning else Healthy
  {
    hide UndecidedAmong, MismatchedAmong, ExposedNodes, Seen, WorstHealth, Recorded, WithVerdict, BoundToAllow;
    if database.None? {
      return NOT_ENABLED;
    }
    var rows, events := database.value.rows, database.value.events;
    var decisions, allowed, denied := ReadDecisions(rows);
    var withoutDecision, mismatch, nodes, failed := ClassifyExposures(decisions, events);
    var requested := if failed then 0 else allowed + denied;
    var health := Healthy;
    if withoutDecision > 0 {
      health := WorstHealth([health, Critical]);
    }
    if mismatch > 0 {
      health := WorstHealth([health, Critical]);
    }
    if denied > 0 {
      health := WorstHealth([health, Warning]);
    }
    WorstOfTwo(Healthy, Critical);
    WorstOfTwo(Critical, Critical);
    WorstOfTwo(Critical, Warning);
    WorstOfTwo(Healthy, Warning);
    CriticalIff(decisions, Seen(events));
    status := Status(!failed, failed, requested, allowed, denied, |rows|, withoutDecision, mismatch, nodes, health);
  }

  /** One of the two bad classes is inhabited exactly when some exposure is not covered. */
  lemma CriticalIff(decisions: map<string, Decision>, events: seq<Exposure>)
    requires Readable(events)
    ensures |UndecidedAmong(decisions, events)| + |MismatchedAmong(decisions, events)| > 0
       <==> exists i :: 0 <= i < |events| && !BoundToAllow(decisions, events[i])
  {
    var u, m := UndecidedAmong(decisions, events), MismatchedAmong(decisions, events);
    if i :| 0 <= i < |events| && !BoundToAllow(decisions, events[i]) {
      assert i in u || i in m;
      if i in u {
        assert u != {};
      } else {
        assert m != {};
      }
    } else {
      assert u == {} && m == {};
    }
  }

  /** An unreadable payload ends the classification: no exposure after it is reported, covered
      or not. */
  lemma UnreadableHidesTheRest(before: seq<Exposure>, run: string, rest: seq<Exposure>)
    requires Readable(before)
    ensures Seen(before + [Exposure(run, Unreadable)] + rest) == before
  {
    var events := before + [Exposure(run, Unreadable)] + rest;
    assert events[..|before|] == before;
    SeenUntil(events, |before|);
  }
}
