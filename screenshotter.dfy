/**
 * `ProfileScreenshotter`: the run as a whole. It groups every credential with a handler by
 * type, refuses to start when no enabled type has a credential, screenshots the enabled
 * types in execution order and turns the names that succeeded and failed into the exit
 * state. Whether one tracker's screenshot succeeds is a parameter.
 */
module ProfileScreenshotting {
  import opened Wrappers
  import opened TrackerTypes
  import opened CsvReader
  import opened ResultCollection
  import opened TrackerRetrieval

  type CredentialsByType = map<TrackerType, set<TrackerCredential>>

  /** `getOrDefault(type, Set.of())`. */
  function CredsOf(m: CredentialsByType, t: TrackerType): set<TrackerCredential> {
    if t in m then m[t] else {}
  }

  /** Every tracker type, as a set. */
  const AllTypes: set<TrackerType> := {HEADLESS, MANUAL, CLOUDFLARE_CHECK, NON_ENGLISH}

  lemma EveryTypeListed(t: TrackerType)
    ensures t in AllTrackerTypes && t in AllTypes
  {
    match t
    case HEADLESS =>
    case MANUAL =>
    case CLOUDFLARE_CHECK =>
    case NON_ENGLISH =>
  }

  // ---------------------------------------------------------------------------
  // Grouping
  // ---------------------------------------------------------------------------

  /** The credential sets of a grouping, without the handlers. */
  function Credentials(g: Grouping): (m: CredentialsByType)
    ensures m.Keys == g.Keys
  {
    map t | t in g :: g[t].1
  }

  /** One turn of the loop below is one turn of the filtering loop that keeps every credential with a handler. */
  lemma CredentialsOfAdd(g: Grouping, c: TrackerCredential, find: string -> Option<TrackerHandlerInfo>)
    ensures find(c.name).None? ==> Credentials(Add(g, c, find, AllTypes, true)) == Credentials(g)
    ensures find(c.name).Some? ==>
      var t := find(c.name).value.trackerType;
      Credentials(Add(g, c, find, AllTypes, true)) == Credentials(g)[t := CredsOf(Credentials(g), t) + {c}]
  {
    if find(c.name).Some? {
      var t := find(c.name).value.trackerType;
      EveryTypeListed(t);
      var g1 := Add(g, c, find, AllTypes, true);
      var expected := Credentials(g)[t := CredsOf(Credentials(g), t) + {c}];
      assert g1.Keys == g.Keys + {t};
      forall u | u in g1 ensures Credentials(g1)[u] == expected[u] {
      }
      assert Credentials(g1) == expected;
    }
  }

  /**
   * `getTrackers`: every credential whose name has a handler joins the set of the handler's
   * type; this is the retriever's grouping with every type in the order and adult content
   * allowed, without the handlers. A file that cannot be used gives no trackers.
   */
  method GetTrackers(read: Result<seq<TrackerCredential>, CsvError>, find: string -> Option<TrackerHandlerInfo>)
    returns (trackersByType: CredentialsByType)
    ensures read.Failure? ==> trackersByType == map[]
    ensures read.Success? ==> trackersByType == Credentials(Grouped(read.value, find, AllTypes, true))
  {
    if read.Failure? {
      return map[];
    }
    var creds := read.value;
    trackersByType := map[];
    var i := 0;
    while i < |creds|
      invariant 0 <= i <= |creds|
      invariant trackersByType == Credentials(Grouped(creds[..i], find, AllTypes, true))
    {
      assert creds[..i + 1][..i] == creds[..i];
      var c := creds[i];
      CredentialsOfAdd(Grouped(creds[..i], find, AllTypes, true), c, find);
      var handler := find(c.name);
      if handler.Some? {
        var t := handler.value.trackerType;
        var existing := CredsOf(trackersByType, t);
        trackersByType := trackersByType[t := existing + {c}];
      }
      i := i + 1;
    }
    assert creds[..i] == creds;
  }

  /** A type has credentials exactly when some credential's handler has that type. */
  lemma GetTrackersKeys(creds: seq<TrackerCredential>, find: string -> Option<TrackerHandlerInfo>, t: TrackerType)
    ensures t in Credentials(Grouped(creds, find, AllTypes, true))
        <==> exists i :: 0 <= i < |creds| && find(creds[i].name).Some? && find(creds[i].name).value.trackerType == t
  {
    GroupedKeys(creds, find, AllTypes, true, t);
    forall i | 0 <= i < |creds| && find(creds[i].name).Some? && find(creds[i].name).value.trackerType == t
      ensures KeptAs(creds[i], t, find, AllTypes, true)
    {
      EveryTypeListed(t);
    }
  }

  // ---------------------------------------------------------------------------
  // Counting and the zero-tracker guard
  // ---------------------------------------------------------------------------

  /** The credentials of the enabled types among `types`. */
  function EnabledCount(m: CredentialsByType, isEnabled: TrackerType -> bool, types: seq<TrackerType>): nat {
    if types == [] then 0
    else EnabledCount(m, isEnabled, types[..|types| - 1]) + (if isEnabled(types[|types| - 1]) then |CredsOf(m, types[|types| - 1])| else 0)
  }

  /** `countAllEnabled`: the credentials of every enabled type. */
  function CountAllEnabled(m: CredentialsByType, isEnabled: TrackerType -> bool): nat {
    EnabledCount(m, isEnabled, AllTrackerTypes)
  }

  lemma {:induction false} EnabledCountZero(m: CredentialsByType, isEnabled: TrackerType -> bool, types: seq<TrackerType>)
    ensures EnabledCount(m, isEnabled, types) == 0 <==> forall t :: t in types && isEnabled(t) ==> CredsOf(m, t) == {}
  {
    if types != [] {
      var front := types[..|types| - 1];
      EnabledCountZero(m, isEnabled, front);
      assert forall t :: t in types <==> t in front || t == types[|types| - 1];
    }
  }

  /** The count is zero exactly when no enabled type has a credential. */
  lemma CountZeroIffNothingEnabled(m: CredentialsByType, isEnabled: TrackerType -> bool)
    ensures CountAllEnabled(m, isEnabled) == 0 <==> forall t :: isEnabled(t) ==> CredsOf(m, t) == {}
  {
    EnabledCountZero(m, isEnabled, AllTrackerTypes);
    forall t ensures t in AllTrackerTypes {
      EveryTypeListed(t);
    }
  }

  // ---------------------------------------------------------------------------
  // The run
  // ---------------------------------------------------------------------------

  /**
   * `returnResultSummary`: the exit state for the numbers of names that succeeded and
   * failed, with the failed names it lists; the same verdict as the result collector's.
   */
  function ReturnResultSummary(successful: set<string>, unsuccessful: set<string>): (r: (ExitState, set<string>))
    ensures r.0 == Verdict(|successful|, |unsuccessful|)
    ensures r.1 == (if r.0 == SUCCESS then {} else unsuccessful)
  {
    if successful == {} then (FAILURE, unsuccessful)
    else if unsuccessful == {} then (SUCCESS, {})
    else (PARTIAL_FAILURE, unsuccessful)
  }

  /** The names of the credentials of the enabled types in `order` whose attempt had the given outcome. */
  function NamesWith(m: CredentialsByType, order: seq<TrackerType>, isEnabled: TrackerType -> bool, attempt: TrackerCredential -> bool, outcome: bool): set<string> {
    if order == [] then {}
    else
      var t := order[|order| - 1];
      NamesWith(m, order[..|order| - 1], isEnabled, attempt, outcome)
      + (if isEnabled(t) then set c | c in CredsOf(m, t) && attempt(c) == outcome :: c.name else {})
  }

  /**
   * `executeProfileScreenshotter`: nothing runs when no enabled type has a credential;
   * otherwise each enabled type in execution order has each of its credentials attempted,
   * and the names that succeeded and failed decide the exit state.
   */
  method ExecuteProfileScreenshotter(trackersByType: CredentialsByType, executionOrder: seq<TrackerType>,
                                     isEnabled: TrackerType -> bool, attempt: TrackerCredential -> bool)
    returns (state: ExitState)
    ensures CountAllEnabled(trackersByType, isEnabled) == 0 ==> state == FAILURE
    ensures CountAllEnabled(trackersByType, isEnabled) > 0 ==>
      state == Verdict(|NamesWith(trackersByType, executionOrder, isEnabled, attempt, true)|,
                       |NamesWith(trackersByType, executionOrder, isEnabled, attempt, false)|)
  {
    var numberOfTrackers := CountAllEnabled(trackersByType, isEnabled);
    if numberOfTrackers == 0 {
      return FAILURE;
    }
    var successful: set<string> := {};
    var unsuccessful: set<string> := {};
    var i := 0;
    while i < |executionOrder|
      invariant 0 <= i <= |executionOrder|
      invariant successful == NamesWith(trackersByType, executionOrder[..i], isEnabled, attempt, true)
      invariant unsuccessful == NamesWith(trackersByType, executionOrder[..i], isEnabled, attempt, false)
    {
      assert executionOrder[..i + 1][..i] == executionOrder[..i];
      var t := executionOrder[i];
      if isEnabled(t) {
        successful, unsuccessful := RunType(CredsOf(trackersByType, t), attempt, successful, unsuccessful);
      }
      i := i + 1;
    }
    assert executionOrder[..i] == executionOrder;
    var summary := ReturnResultSummary(successful, unsuccessful);
    state := summary.0;
  }

  /** The inner loop: every credential of one type is attempted and its name recorded by outcome. */
  method RunType(creds: set<TrackerCredential>, attempt: TrackerCredential -> bool, successful0: set<string>, unsuccessful0: set<string>)
    returns (successful: set<string>, unsuccessful: set<string>)
    ensures successful == successful0 + set c | c in creds && attempt(c) == true :: c.name
    ensures unsuccessful == unsuccessful0 + set c | c in creds && attempt(c) == false :: c.name
  {
    successful, unsuccessful := successful0, unsuccessful0;
    var remaining := creds;
    ghost var done: set<TrackerCredential> := {};
    while remaining != {}
      invariant remaining + done == creds
      invariant successful == successful0 + set c | c in done && attempt(c) == true :: c.name
      invariant unsuccessful == unsuccessful0 + set c | c in done && attempt(c) == false :: c.name
      decreases |remaining|
    {
      var c :| c in remaining;
      if attempt(c) {
        successful := successful + {c.name};
      } else {
        unsuccessful := unsuccessful + {c.name};
      }
      remaining := remaining - {c};
      done := done + {c};
    }
  }
}
