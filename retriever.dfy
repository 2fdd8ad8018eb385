/**
 * `TrackerRetriever.getTrackers`: reads the credentials and groups the ones to run by
 * tracker type, each type with the handler of its first credential and the set of its
 * credentials. A credential is dropped when no handler matches its name, when its type is
 * not in the execution order, or when it is an adult tracker and adult content is off.
 */
module TrackerRetrieval {
  import opened Wrappers
  import opened TrackerTypes
  import opened CsvReader

  type Grouping = map<TrackerType, (TrackerHandlerInfo, set<TrackerCredential>)>

  /** The handler a credential runs with, when it is kept. */
  function Selection(c: TrackerCredential, find: string -> Option<TrackerHandlerInfo>, order: set<TrackerType>, enableAdultContent: bool): (r: Option<TrackerHandlerInfo>)
    ensures r.Some? <==> find(c.name).Some? && find(c.name).value.trackerType in order && (enableAdultContent || !find(c.name).value.adult)
    ensures r.Some? ==> r == find(c.name)
  {
    match find(c.name)
    case None => None
    case Some(h) =>
      if h.trackerType !in order then None
      else if !enableAdultContent && h.adult then None
      else Some(h)
  }

  /** The credential is kept, with a handler of type `t`. */
  predicate KeptAs(c: TrackerCredential, t: TrackerType, find: string -> Option<TrackerHandlerInfo>, order: set<TrackerType>, enableAdultContent: bool) {
    var h := Selection(c, find, order, enableAdultContent);
    h.Some? && h.value.trackerType == t
  }

  /** One turn of the loop: a kept credential joins its type, which starts with its handler. */
  function Add(m: Grouping, c: TrackerCredential, find: string -> Option<TrackerHandlerInfo>, order: set<TrackerType>, enableAdultContent: bool): Grouping {
    match Selection(c, find, order, enableAdultContent)
    case None => m
    case Some(h) =>
      var t := h.trackerType;
      if t !in m then m[t := (h, {c})] else m[t := (m[t].0, m[t].1 + {c})]
  }

  /** The grouping of the credentials, one turn of the loop per credential in file order. */
  function Grouped(creds: seq<TrackerCredential>, find: string -> Option<TrackerHandlerInfo>, order: set<TrackerType>, enableAdultContent: bool): Grouping
    decreases |creds|
  {
    if creds == [] then map[]
    else Add(Grouped(creds[..|creds| - 1], find, order, enableAdultContent), creds[|creds| - 1], find, order, enableAdultContent)
  }

  /**
   * `getTrackers`, once the file has been read: the loop over the credentials. A file that
   * cannot be used gives no trackers at all.
   */
  method GetTrackers(read: Result<seq<TrackerCredential>, CsvError>, find: string -> Option<TrackerHandlerInfo>, order: set<TrackerType>, enableAdultContent: bool)
    returns (trackersByType: Grouping)
    ensures read.Failure? ==> trackersByType == map[]
    ensures read.Success? ==> trackersByType == Grouped(read.value, find, order, enableAdultContent)
  {
    if read.Failure? {
      return map[];
    }
    var creds := read.value;
    trackersByType := map[];
    var i := 0;
    while i < |creds|
      invariant 0 <= i <= |creds|
      invariant trackersByType == Grouped(creds[..i], find, order, enableAdultContent)
    {
      assert creds[..i + 1][..i] == creds[..i];
      var c := creds[i];
      var handler := find(c.name);
      if handler.None? {
        i := i + 1;
        continue;
      }
      var h := handler.value;
      if h.trackerType !in order {
        i := i + 1;
        continue;
      }
      if !enableAdultContent && h.adult {
        i := i + 1;
        continue;
      }
      if h.trackerType !in trackersByType {
        trackersByType := trackersByType[h.trackerType := (h, {c})];
      } else {
        var existing := trackersByType[h.trackerType];
        trackersByType := trackersByType[h.trackerType := (existing.0, existing.1 + {c})];
      }
      i := i + 1;
    }
    assert creds[..i] == creds;
  }

  /** A type is present exactly when some credential is kept with it. */
  lemma {:induction false} GroupedKeys(creds: seq<TrackerCredential>, find: string -> Option<TrackerHandlerInfo>, order: set<TrackerType>, enableAdultContent: bool, t: TrackerType)
    ensures t in Grouped(creds, find, order, enableAdultContent) <==> exists i :: 0 <= i < |creds| && KeptAs(creds[i], t, find, order, enableAdultContent)
    decreases |creds|
  {
    if creds != [] {
      var n := |creds| - 1;
      var front := creds[..n];
      GroupedKeys(front, find, order, enableAdultContent, t);
      assert forall i :: 0 <= i < n ==> creds[i] == front[i];
      if t in Grouped(front, find, order, enableAdultContent) {
        var i :| 0 <= i < n && KeptAs(front[i], t, find, order, enableAdultContent);
        assert KeptAs(creds[i], t, find, order, enableAdultContent);
      }
    }
  }

  /** A present type holds every credential kept with it, and nothing else. */
  lemma {:induction false} GroupedMembers(creds: seq<TrackerCredential>, find: string -> Option<TrackerHandlerInfo>, order: set<TrackerType>, enableAdultContent: bool, t: TrackerType)
    requires t in Grouped(creds, find, order, enableAdultContent)
    ensures Grouped(creds, find, order, enableAdultContent)[t].1
            == set i | 0 <= i < |creds| && KeptAs(creds[i], t, find, order, enableAdultContent) :: creds[i]
    decreases |creds|
  {
    var n := |creds| - 1;
    var front := creds[..n];
    var g0 := Grouped(front, find, order, enableAdultContent);
    var c := creds[n];
    var kept := KeptAs(c, t, find, order, enableAdultContent);
    assert forall i :: 0 <= i < n ==> creds[i] == front[i];
    var s0 := set i | 0 <= i < n && KeptAs(front[i], t, find, order, enableAdultContent) :: front[i];
    var s1 := set i | 0 <= i < |creds| && KeptAs(creds[i], t, find, order, enableAdultContent) :: creds[i];
    assert s1 == s0 + (if kept then {c} else {});
    if t in g0 {
      GroupedMembers(front, find, order, enableAdultContent, t);
    } else {
      GroupedKeys(front, find, order, enableAdultContent, t);
      assert s0 == {};
    }
  }

  /** A present type keeps the handler of the first credential kept with it, in file order. */
  lemma {:induction false} GroupedHandler(creds: seq<TrackerCredential>, find: string -> Option<TrackerHandlerInfo>, order: set<TrackerType>, enableAdultContent: bool, t: TrackerType)
    requires t in Grouped(creds, find, order, enableAdultContent)
    ensures exists i :: 0 <= i < |creds| && KeptAs(creds[i], t, find, order, enableAdultContent)
              && (forall j :: 0 <= j < i ==> !KeptAs(creds[j], t, find, order, enableAdultContent))
              && Some(Grouped(creds, find, order, enableAdultContent)[t].0) == find(creds[i].name)
    decreases |creds|
  {
    var n := |creds| - 1;
    var front := creds[..n];
    var g0 := Grouped(front, find, order, enableAdultContent);
    assert forall i :: 0 <= i < n ==> creds[i] == front[i];
    if t in g0 {
      GroupedHandler(front, find, order, enableAdultContent, t);
      var i :| 0 <= i < n && KeptAs(front[i], t, find, order, enableAdultContent)
               && (forall j :: 0 <= j < i ==> !KeptAs(front[j], t, find, order, enableAdultContent))
               && Some(g0[t].0) == find(front[i].name);
      assert KeptAs(creds[i], t, find, order, enableAdultContent);
    } else {
      GroupedKeys(front, find, order, enableAdultContent, t);
      assert KeptAs(creds[n], t, find, order, enableAdultContent);
    }
  }
}
