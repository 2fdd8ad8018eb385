/**
 * `ResultCollector`: records, per tracker type, the names of the trackers whose screenshot
 * succeeded and of those whose screenshot failed, and derives the run's exit state from
 * the two tallies. Each `EnumMap` of `TreeSet`s is a map from type to a set of names.
 */
module ResultCollection {
  import opened TrackerTypes

  type NamesByType = map<TrackerType, set<string>>

  /** The names recorded for one type; none when the type is absent. */
  function NamesOf(m: NamesByType, t: TrackerType): set<string> {
    if t in m then m[t] else {}
  }

  /** The number of names recorded for all types together (the sum over the map's values). */
  function Total(m: NamesByType): nat {
    |NamesOf(m, HEADLESS)| + |NamesOf(m, MANUAL)| + |NamesOf(m, CLOUDFLARE_CHECK)| + |NamesOf(m, NON_ENGLISH)|
  }

  /** `computeIfAbsent(type, new TreeSet).add(name)`: the name joins its type's set. */
  function Record(m: NamesByType, t: TrackerType, name: string): (r: NamesByType)
    ensures r.Keys == m.Keys + {t}
    ensures forall u :: u in r ==> r[u] == (if u == t then NamesOf(m, t) + {name} else m[u])
  {
    m[t := NamesOf(m, t) + {name}]
  }

  /** Recording a name adds one to the total, unless the name was already recorded for that type. */
  lemma RecordCounts(m: NamesByType, t: TrackerType, name: string)
    ensures Total(Record(m, t, name)) == Total(m) + (if name in NamesOf(m, t) then 0 else 1)
  {
    var r := Record(m, t, name);
    var before := NamesOf(m, t);
    assert NamesOf(r, t) == before + {name};
    if name in before {
      assert before + {name} == before;
    } else {
      assert before * {name} == {};
      assert |before + {name}| == |before| + |{name}|;
    }
    forall u | u != t ensures NamesOf(r, u) == NamesOf(m, u) {
    }
  }

  /** Every type present holds at least one name: the only way a key is added is with a name. */
  predicate NoEmptySets(m: NamesByType) {
    forall t :: t in m ==> m[t] != {}
  }

  /** With no empty sets, nothing is recorded exactly when the total is zero. */
  lemma TotalZeroIffEmpty(m: NamesByType)
    requires NoEmptySets(m)
    ensures Total(m) == 0 <==> m == map[]
  {
    if m != map[] {
      var t :| t in m;
      assert |NamesOf(m, t)| > 0;
      match t
      case HEADLESS =>
      case MANUAL =>
      case CLOUDFLARE_CHECK =>
      case NON_ENGLISH =>
    }
  }

  /**
   * The exit state the tallies call for: failure when nothing succeeded (whether or not
   * anything ran), success when something succeeded and nothing failed, partial failure
   * otherwise.
   */
  function Verdict(successes: nat, failures: nat): (e: ExitState)
    ensures e == FAILURE <==> successes == 0
    ensures e == SUCCESS <==> successes > 0 && failures == 0
    ensures e == PARTIAL_FAILURE <==> successes > 0 && failures > 0
  {
    if successes == 0 && failures == 0 then FAILURE
    else if successes == 0 then FAILURE
    else if failures == 0 then SUCCESS
    else PARTIAL_FAILURE
  }

  /** The failures listed by type, in the given order, skipping types with none. */
  function FailureReport(m: NamesByType, order: seq<TrackerType>): (r: seq<(TrackerType, set<string>)>)
    ensures forall k :: 0 <= k < |r| ==> r[k].0 in order && r[k].0 in m && r[k].1 == m[r[k].0] && r[k].1 != {}
    ensures forall t :: t in order && t in m && m[t] != {} ==> exists k :: 0 <= k < |r| && r[k].0 == t
  {
    if order == [] then
      []
    else
      var t := order[|order| - 1];
      var front := FailureReport(m, order[..|order| - 1]);
      assert forall u :: u in order ==> u in order[..|order| - 1] || u == t;
      assert forall u :: u in order[..|order| - 1] ==> u in order;
      if t in m && m[t] != {} then
        var r := front + [(t, m[t])];
        assert r[|front|].0 == t;
        assert forall k :: 0 <= k < |front| ==> r[k] == front[k];
        assert forall u :: u in order[..|order| - 1] && u in m && m[u] != {} ==> exists k :: 0 <= k < |r| && r[k].0 == u by {
          forall u | u in order[..|order| - 1] && u in m && m[u] != {} ensures exists k :: 0 <= k < |r| && r[k].0 == u {
            var k :| 0 <= k < |front| && front[k].0 == u;
            assert r[k].0 == u;
          }
        }
        r
      else
        front
  }

  lemma NothingToReport(m: NamesByType, order: seq<TrackerType>)
    requires m == map[]
    ensures FailureReport(m, order) == []
  {
    if order != [] {
      NothingToReport(m, order[..|order| - 1]);
    }
  }

  class ResultCollector {
    var successful: NamesByType
    var unsuccessful: NamesByType

    ghost predicate Valid()
      reads this
    {
      NoEmptySets(successful) && NoEmptySets(unsuccessful)
    }

    constructor()
      ensures successful == map[] && unsuccessful == map[]
      ensures Valid()
    {
      successful := map[];
      unsuccessful := map[];
    }

    /** `addResult`: the name is recorded under its type, in the map the outcome selects. */
    method AddResult(trackerType: TrackerType, trackerName: string, wasSuccessful: bool)
      requires Valid()
      modifies this
      ensures Valid()
      ensures wasSuccessful ==> successful == Record(old(successful), trackerType, trackerName) && unsuccessful == old(unsuccessful)
      ensures !wasSuccessful ==> unsuccessful == Record(old(unsuccessful), trackerType, trackerName) && successful == old(successful)
    {
      if wasSuccessful {
        successful := successful[trackerType := NamesOf(successful, trackerType) + {trackerName}];
      } else {
        unsuccessful := unsuccessful[trackerType := NamesOf(unsuccessful, trackerType) + {trackerName}];
      }
    }

    /**
     * `generateSummary`: the exit state for the two totals, and the failures it reports:
     * every failing type in declaration order when all failed, those in the execution order
     * when some succeeded, none otherwise.
     */
    method GenerateSummary(executionOrder: seq<TrackerType>) returns (state: ExitState, reported: seq<(TrackerType, set<string>)>)
      requires Valid()
      ensures state == Verdict(Total(successful), Total(unsuccessful))
      ensures state == FAILURE ==> reported == FailureReport(unsuccessful, AllTrackerTypes)
      ensures state == PARTIAL_FAILURE ==> reported == FailureReport(unsuccessful, executionOrder)
      ensures state == SUCCESS ==> reported == []
    {
      var totalSuccessful := Total(successful);
      var totalUnsuccessful := Total(unsuccessful);
      if totalSuccessful == 0 && totalUnsuccessful == 0 {
        TotalZeroIffEmpty(unsuccessful);
        NothingToReport(unsuccessful, AllTrackerTypes);
        return FAILURE, [];
      }
      if totalSuccessful == 0 {
        reported := ReportFailures(AllTrackerTypes);
        return FAILURE, reported;
      }
      if totalUnsuccessful == 0 {
        return SUCCESS, [];
      }
      reported := ReportFailures(executionOrder);
      state := PARTIAL_FAILURE;
    }

    /** The loop over the types that lists each one with failures, and its names. */
    method ReportFailures(order: seq<TrackerType>) returns (reported: seq<(TrackerType, set<string>)>)
      ensures reported == FailureReport(unsuccessful, order)
    {
      reported := [];
      var i := 0;
      while i < |order|
        invariant 0 <= i <= |order|
        invariant reported == FailureReport(unsuccessful, order[..i])
      {
        assert order[..i + 1][..i] == order[..i];
        var t := order[i];
        if t in unsuccessful && unsuccessful[t] != {} {
          reported := reported + [(t, unsuccessful[t])];
        }
        i := i + 1;
      }
      assert order[..i] == order;
    }
  }

  /** A collector that has recorded at least one outcome never reports that nothing ran. */
  lemma RecordedSomething(successful: NamesByType, unsuccessful: NamesByType, t: TrackerType, name: string, wasSuccessful: bool)
    ensures var s := if wasSuccessful then Record(successful, t, name) else successful;
            var u := if wasSuccessful then unsuccessful else Record(unsuccessful, t, name);
            Total(s) + Total(u) > 0
  {
    if wasSuccessful {
      assert name in NamesOf(Record(successful, t, name), t);
    } else {
      assert name in NamesOf(Record(unsuccessful, t, name), t);
    }
  }
}
