/**
 * The entry points of the patient-data contract
 * (secret-contract/src/contract.rs): `instantiate` stores an empty state,
 * `execute` appends to one of its three lists, and `query` reads it back
 * filtered by patient, the analyses only for a registered viewing key.
 *
 * The contract's storage is a `Deps` object whose one field is the value
 * stored under "state", absent (`None`) until `instantiate` has run.
 * Serialization is the identity, so the only way reading the state can fail
 * is the absent value, which does not parse (`ParseErr`).
 * `Instantiate` and `Execute` are the imperative entry points, each proved
 * against a function of the old storage; `Query` is pure, as in the source.
 */
module Contract {
  import opened Wrappers
  import opened ContractState
  import opened ContractMsg

  /** The one viewing key `CreateViewingKey` ever hands out. */
  const TestKey: string := "test_key"
  const InvalidKey: string := "Invalid viewing key"
  const ViewingKeyAttribute: string := "viewing_key"

  datatype Attribute = Attribute(key: string, value: string)

  /** A message a response asks the chain to send; no entry point sends one. */
  datatype CosmosMsg = CosmosMsg(payload: string)

  datatype Response = Response(messages: seq<CosmosMsg>, attributes: seq<Attribute>)

  /** `Response::default()` */
  const DefaultResponse: Response := Response([], [])

  datatype StdError = GenericErr(msg: string) | ParseErr

  /** The contract's storage. */
  class Deps {
    var storage: Option<State>

    /** Fresh storage, as `mock_dependencies()` gives: nothing stored. */
    constructor ()
      ensures storage == None
    {
      storage := None;
    }
  }

  const EmptyState: State := State([], [], [])

  /** `from_binary(storage.get("state").unwrap_or_default())`: the stored
      state, or a parse error when nothing is stored. */
  function Load(storage: Option<State>): (r: Result<State, StdError>)
    ensures r.Ok? <==> storage.Some?
    ensures r.Ok? ==> r.value == storage.value
    ensures r.Err? ==> r.error == ParseErr
  {
    match storage
    case None => Err(ParseErr)
    case Some(s) => Ok(s)
  }

  /** `instantiate`: store the empty state, answer the default response. */
  method Instantiate(deps: Deps, msg: InstantiateMsg) returns (r: Result<Response, StdError>)
    modifies deps
    ensures deps.storage == Some(EmptyState)
    ensures r == Ok(DefaultResponse)
  {
    var state := State([], [], []);
    deps.storage := Some(state);
    r := Ok(Response([], []));
  }

  // ---------------------------------------------------------------------
  // execute

  /** What one command does to a loaded state: exactly one record is pushed
      onto the end of exactly one list. */
  function Apply(s: State, msg: ExecuteMsg): (t: State)
    ensures Extends(s, t)
    ensures |t.analyses| + |t.dailyProgress| + |t.viewingKeys|
         == |s.analyses| + |s.dailyProgress| + |s.viewingKeys| + 1
    ensures msg.SaveAnalysis? ==>
      t.analyses == s.analyses + [Analysis(msg.patientId, msg.content)]
      && t.dailyProgress == s.dailyProgress && t.viewingKeys == s.viewingKeys
    ensures msg.CreateViewingKey? ==>
      t.viewingKeys == s.viewingKeys + [ViewingKey(msg.patientId, TestKey)]
      && t.analyses == s.analyses && t.dailyProgress == s.dailyProgress
    ensures msg.SaveDailyProgress? ==>
      t.dailyProgress == s.dailyProgress + [DailyProgress(msg.patientId, msg.date, msg.tasks, msg.description)]
      && t.analyses == s.analyses && t.viewingKeys == s.viewingKeys
  {
    match msg
    case SaveAnalysis(p, c) => s.(analyses := s.analyses + [Analysis(p, c)])
    case CreateViewingKey(p) => s.(viewingKeys := s.viewingKeys + [ViewingKey(p, TestKey)])
    case SaveDailyProgress(p, d, ts, desc) => s.(dailyProgress := s.dailyProgress + [DailyProgress(p, d, ts, desc)])
  }

  /** The response of a command that succeeded: only `CreateViewingKey`
      carries an attribute, the key it created; none carries a message. */
  function Reply(msg: ExecuteMsg): (r: Response)
    ensures r.messages == []
    ensures msg.CreateViewingKey? <==> r.attributes != []
    ensures msg.CreateViewingKey? ==> r.attributes == [Attribute(ViewingKeyAttribute, TestKey)]
  {
    if msg.CreateViewingKey? then Response([], [Attribute(ViewingKeyAttribute, TestKey)]) else DefaultResponse
  }

  /** The storage after a command, and its result. */
  datatype Outcome = Outcome(storage: Option<State>, result: Result<Response, StdError>)

  /** `execute` as a function of the storage: a parse error that changes
      nothing when no state is stored, otherwise the pushed state and the reply. */
  function ExecuteOn(storage: Option<State>, msg: ExecuteMsg): (o: Outcome)
    ensures o.result.Ok? <==> storage.Some?
    ensures storage.None? ==> o == Outcome(None, Err(ParseErr))
    ensures storage.Some? ==> o == Outcome(Some(Apply(storage.value, msg)), Ok(Reply(msg)))
  {
    match Load(storage)
    case Err(e) => Outcome(storage, Err(e))
    case Ok(s) => Outcome(Some(Apply(s, msg)), Ok(Reply(msg)))
  }

  /** `execute`: each arm loads the state, pushes one record and stores it back. */
  method Execute(deps: Deps, msg: ExecuteMsg) returns (r: Result<Response, StdError>)
    modifies deps
    ensures Outcome(deps.storage, r) == ExecuteOn(old(deps.storage), msg)
  {
    var loaded := Load(deps.storage);
    if loaded.Err? {
      return Err(loaded.error);
    }
    var state := loaded.value;
    match msg {
      case SaveAnalysis(patientId, content) =>
        state := state.(analyses := state.analyses + [Analysis(patientId, content)]);
        deps.storage := Some(state);
        r := Ok(DefaultResponse);
      case CreateViewingKey(patientId) =>
        var key := TestKey;
        state := state.(viewingKeys := state.viewingKeys + [ViewingKey(patientId, key)]);
        deps.storage := Some(state);
        r := Ok(Response([], [Attribute(ViewingKeyAttribute, key)]));
      case SaveDailyProgress(patientId, date, tasks, description) =>
        state := state.(dailyProgress := state.dailyProgress + [DailyProgress(patientId, date, tasks, description)]);
        deps.storage := Some(state);
        r := Ok(DefaultResponse);
    }
  }

  /** The storage after a sequence of commands, each run on the storage the
      previous one left. */
  function Run(storage: Option<State>, msgs: seq<ExecuteMsg>): (r: Option<State>)
    ensures r.None? <==> storage.None?
    decreases |msgs|
  {
    if msgs == [] then storage else Run(ExecuteOn(storage, msgs[0]).storage, msgs[1..])
  }

  // ---------------------------------------------------------------------
  // query

  /** `viewing_keys.iter().any(|(id, key)| id == patient_id && key == viewing_key)` */
  function AnyKey(keys: seq<ViewingKey>, patientId: string, viewingKey: string): (b: bool)
    ensures b <==> exists i :: 0 <= i < |keys| && keys[i] == ViewingKey(patientId, viewingKey)
  {
    if keys == [] then false
    else if keys[0].patientId == patientId && keys[0].key == viewingKey then true
    else
      var rest := AnyKey(keys[1..], patientId, viewingKey);
      assert rest ==> exists i :: 0 <= i < |keys| && keys[i] == ViewingKey(patientId, viewingKey) by {
        if rest {
          var j :| 0 <= j < |keys| - 1 && keys[1..][j] == ViewingKey(patientId, viewingKey);
          assert keys[j + 1] == keys[1..][j];
        }
      }
      assert (exists i :: 0 <= i < |keys| && keys[i] == ViewingKey(patientId, viewingKey)) ==> rest by {
        forall i | 0 < i < |keys| && keys[i] == ViewingKey(patientId, viewingKey)
          ensures exists j :: 0 <= j < |keys| - 1 && keys[1..][j] == ViewingKey(patientId, viewingKey)
        {
          assert keys[1..][i - 1] == keys[i];
        }
      }
      rest
  }

  /** `a` can be obtained from `b` by deleting elements, keeping the order. */
  predicate IsSubsequence<T(==)>(a: seq<T>, b: seq<T>)
    decreases |b|
  {
    a == [] || (b != [] && ((a[0] == b[0] && IsSubsequence(a[1..], b[1..])) || IsSubsequence(a, b[1..])))
  }

  /** `iter().filter(keep).cloned().collect()`: the elements that pass, in
      their order, and no others. */
  function Filter<T(==,!new)>(xs: seq<T>, keep: T -> bool): (r: seq<T>)
    ensures |r| <= |xs|
    ensures IsSubsequence(r, xs)
    ensures forall x :: x in r <==> x in xs && keep(x)
    decreases |xs|
  {
    if xs == [] then []
    else
      var rest := Filter(xs[1..], keep);
      if keep(xs[0]) then
        assert ([xs[0]] + rest)[1..] == rest;
        assert forall x :: x in xs <==> x == xs[0] || x in xs[1..];
        [xs[0]] + rest
      else
        assert forall x :: x in xs <==> x == xs[0] || x in xs[1..];
        rest
  }

  /** Every element that passes is kept as many times as it occurs, and any
      other is dropped every time. */
  lemma {:induction false} FilterCounts<T(!new)>(xs: seq<T>, keep: T -> bool)
    ensures forall x :: multiset(Filter(xs, keep))[x] == if keep(x) then multiset(xs)[x] else 0
    decreases |xs|
  {
    if xs != [] {
      FilterCounts(xs[1..], keep);
      assert xs == [xs[0]] + xs[1..];
      if keep(xs[0]) {
        assert Filter(xs, keep) == [xs[0]] + Filter(xs[1..], keep);
      }
    }
  }

  /** The analyses of one patient: those whose patient matches, each as many
      times as it is stored, in the order they were stored. */
  function AnalysesOf(analyses: seq<Analysis>, patientId: string): (r: seq<Analysis>)
    ensures IsSubsequence(r, analyses)
    ensures forall a :: multiset(r)[a] == if a.patientId == patientId then multiset(analyses)[a] else 0
  {
    var keep := (a: Analysis) => a.patientId == patientId;
    FilterCounts(analyses, keep);
    Filter(analyses, keep)
  }

  /** The progress records of one patient, likewise. */
  function ProgressOf(progress: seq<DailyProgress>, patientId: string): (r: seq<DailyProgress>)
    ensures IsSubsequence(r, progress)
    ensures forall p :: multiset(r)[p] == if p.patientId == patientId then multiset(progress)[p] else 0
  {
    var keep := (p: DailyProgress) => p.patientId == patientId;
    FilterCounts(progress, keep);
    Filter(progress, keep)
  }

  /** `query`: read-only. `GetAnalyses` fails with "Invalid viewing key"
      exactly when no stored pair matches both the patient and the key, and
      otherwise answers that patient's analyses; `GetDailyProgress` checks no
      key and answers that patient's progress records. */
  function Query(storage: Option<State>, msg: QueryMsg): (r: Result<QueryAnswer, StdError>)
    ensures storage.None? ==> r == Err(ParseErr)
    ensures storage.Some? && msg.GetAnalyses? ==>
      (r == Err(GenericErr(InvalidKey)) <==>
        !exists i :: 0 <= i < |storage.value.viewingKeys|
          && storage.value.viewingKeys[i] == ViewingKey(msg.patientId, msg.viewingKey))
    ensures storage.Some? && msg.GetAnalyses? && AnyKey(storage.value.viewingKeys, msg.patientId, msg.viewingKey) ==>
      r == Ok(Analyses(AnalysesOf(storage.value.analyses, msg.patientId)))
    ensures storage.Some? && msg.GetDailyProgress? ==>
      r == Ok(Progress(ProgressOf(storage.value.dailyProgress, msg.patientId)))
  {
    match Load(storage)
    case Err(e) => Err(e)
    case Ok(state) =>
      match msg
      case GetAnalyses(patientId, viewingKey) =>
        if !AnyKey(state.viewingKeys, patientId, viewingKey) then Err(GenericErr(InvalidKey))
        else Ok(Analyses(AnalysesOf(state.analyses, patientId)))
      case GetDailyProgress(patientId) =>
        Ok(Progress(ProgressOf(state.dailyProgress, patientId)))
  }

  // ---------------------------------------------------------------------
  // Properties

  /** A filter over a list with one more element at its end answers the old
      answer, followed by that element when it passes. */
  lemma {:induction false} FilterAppend<T(!new)>(xs: seq<T>, x: T, keep: T -> bool)
    ensures Filter(xs + [x], keep) == Filter(xs, keep) + (if keep(x) then [x] else [])
    decreases |xs|
  {
    if xs == [] {
      assert [x][1..] == [];
    } else {
      var ys := xs + [x];
      var tail := if keep(x) then [x] else [];
      assert ys[0] == xs[0] && ys[1..] == xs[1..] + [x];
      FilterAppend(xs[1..], x, keep);
      if keep(xs[0]) {
        calc {
          Filter(ys, keep);
          [xs[0]] + Filter(xs[1..] + [x], keep);
          [xs[0]] + (Filter(xs[1..], keep) + tail);
          ([xs[0]] + Filter(xs[1..], keep)) + tail;
          Filter(xs, keep) + tail;
        }
      } else {
        calc {
          Filter(ys, keep);
          Filter(xs[1..] + [x], keep);
          Filter(xs[1..], keep) + tail;
          Filter(xs, keep) + tail;
        }
      }
    }
  }

  /** What a filter answers on a prefix of a list is a prefix of what it answers on the list. */
  lemma {:induction false} FilterPrefix<T(!new)>(xs: seq<T>, ys: seq<T>, keep: T -> bool)
    requires IsPrefix(xs, ys)
    ensures IsPrefix(Filter(xs, keep), Filter(ys, keep))
    decreases |ys|
  {
    if xs == ys {
    } else {
      var init := ys[..|ys| - 1];
      assert ys == init + [ys[|ys| - 1]];
      assert IsPrefix(xs, init) by {
        assert init[..|xs|] == ys[..|xs|];
      }
      FilterPrefix(xs, init, keep);
      FilterAppend(init, ys[|ys| - 1], keep);
      var a := Filter(xs, keep);
      var b := Filter(init, keep);
      assert Filter(ys, keep)[..|a|] == b[..|a|];
    }
  }

  /** Commands never remove anything: after any sequence of them every list
      of the old state is a prefix of the new one, and the lists have grown
      by one record per command in total. */
  lemma {:induction false} RunExtends(s: State, msgs: seq<ExecuteMsg>)
    ensures Run(Some(s), msgs).Some?
    ensures Extends(s, Run(Some(s), msgs).value)
    ensures var t := Run(Some(s), msgs).value;
      |t.analyses| + |t.dailyProgress| + |t.viewingKeys|
        == |s.analyses| + |s.dailyProgress| + |s.viewingKeys| + |msgs|
    decreases |msgs|
  {
    if msgs == [] {
      assert s.analyses[..|s.analyses|] == s.analyses;
      assert s.dailyProgress[..|s.dailyProgress|] == s.dailyProgress;
      assert s.viewingKeys[..|s.viewingKeys|] == s.viewingKeys;
    } else {
      var next := Apply(s, msgs[0]);
      RunExtends(next, msgs[1..]);
      ExtendsTransitive(s, next, Run(Some(next), msgs[1..]).value);
    }
  }

  /** A key check that passes keeps passing once more pairs are stored after it. */
  lemma KeyKept(keys: seq<ViewingKey>, more: seq<ViewingKey>, patientId: string, viewingKey: string)
    requires IsPrefix(keys, more) && AnyKey(keys, patientId, viewingKey)
    ensures AnyKey(more, patientId, viewingKey)
  {
    var i :| 0 <= i < |keys| && keys[i] == ViewingKey(patientId, viewingKey);
    assert more[i] == more[..|keys|][i];
  }

  /** Once `CreateViewingKey(p)` has run, `GetAnalyses(p, "test_key")` never
      fails again, whatever commands follow. */
  lemma KeyNeverFailsAfterCreate(s: State, patientId: string, later: seq<ExecuteMsg>)
    ensures Query(Run(Some(s), [CreateViewingKey(patientId)] + later), GetAnalyses(patientId, TestKey)).Ok?
  {
    var msgs := [CreateViewingKey(patientId)] + later;
    var created := Apply(s, CreateViewingKey(patientId));
    assert msgs[0] == CreateViewingKey(patientId) && msgs[1..] == later;
    RunExtends(created, later);
    var t := Run(Some(created), later).value;
    assert created.viewingKeys[|s.viewingKeys|] == ViewingKey(patientId, TestKey);
    KeyKept(created.viewingKeys, t.viewingKeys, patientId, TestKey);
  }

  /** Right after `instantiate` no key is registered, so every `GetAnalyses` fails. */
  lemma FreshStateRejectsKeys(patientId: string, viewingKey: string)
    ensures Query(Some(EmptyState), GetAnalyses(patientId, viewingKey)) == Err(GenericErr(InvalidKey))
  {
  }

  /** An analysis saved for a patient who holds the key is answered last. */
  lemma SavedAnalysisAnsweredLast(s: State, patientId: string, viewingKey: string, content: string)
    requires AnyKey(s.viewingKeys, patientId, viewingKey)
    ensures Query(Some(Apply(s, SaveAnalysis(patientId, content))), GetAnalyses(patientId, viewingKey))
         == Ok(Analyses(AnalysesOf(s.analyses, patientId) + [Analysis(patientId, content)]))
  {
    FilterAppend(s.analyses, Analysis(patientId, content), (a: Analysis) => a.patientId == patientId);
  }

  /** Each query answers the list type it declares: `GetAnalyses` a list of
      analyses, `GetDailyProgress` a list of progress records. */
  lemma AnswerTypes(storage: Option<State>, msg: QueryMsg)
    ensures Query(storage, msg).Ok? ==> (msg.GetAnalyses? <==> Query(storage, msg).value.Analyses?)
  {
  }

  /** What `GetDailyProgress` answers depends only on the progress list: the
      analyses and the viewing keys make no difference. */
  lemma ProgressIgnoresKeys(s: State, t: State, patientId: string)
    requires s.dailyProgress == t.dailyProgress
    ensures Query(Some(s), GetDailyProgress(patientId)) == Query(Some(t), GetDailyProgress(patientId))
  {
  }

  /** Later commands only ever extend what a query answers. */
  lemma ProgressAnswersGrow(s: State, msgs: seq<ExecuteMsg>, patientId: string)
    ensures Run(Some(s), msgs).Some?
    ensures IsPrefix(ProgressOf(s.dailyProgress, patientId),
                     ProgressOf(Run(Some(s), msgs).value.dailyProgress, patientId))
  {
    RunExtends(s, msgs);
    FilterPrefix(s.dailyProgress, Run(Some(s), msgs).value.dailyProgress, (p: DailyProgress) => p.patientId == patientId);
  }

  // ---------------------------------------------------------------------
  // The source's unit tests

  /** `proper_initialization`: instantiating fresh storage succeeds and the
      response carries no messages. */
  method ProperInitialization() returns (messages: nat)
    ensures messages == 0
  {
    var deps := new Deps();
    var res := Instantiate(deps, InstantiateMsg);
    messages := |res.value.messages|;
  }

  /** `test_save_analysis`: after `instantiate`, `CreateViewingKey("123")` and
      one `SaveAnalysis("123", ...)`, querying with "test_key" answers exactly
      one analysis. */
  method TestSaveAnalysis() returns (count: nat)
    ensures count == 1
  {
    var deps := new Deps();
    var init := Instantiate(deps, InstantiateMsg);
    var created := Execute(deps, CreateViewingKey("123"));
    var saved := Execute(deps, SaveAnalysis("123", "test content"));
    assert created.Ok? && saved.Ok?;
    var res := Query(deps.storage, GetAnalyses("123", "test_key"));
    assert deps.storage.value.viewingKeys[0] == ViewingKey("123", TestKey);
    assert res.Ok?;
    assert deps.storage.value.analyses == [Analysis("123", "test content")];
    assert res.value.analyses == [Analysis("123", "test content")] by {
      assert [Analysis("123", "test content")][1..] == [];
    }
    count := |res.value.analyses|;
  }
}
