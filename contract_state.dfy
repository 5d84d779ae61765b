/**
 * The records of the patient-data contract (secret-contract/src/contract.rs):
 * a task of a day, a stored analysis, a day's progress, and the whole stored
 * state, which is three lists that only ever grow at their ends.
 */
module ContractState {

  /** Rust's `u64`. */
  type U64 = x: int | 0 <= x < 0x1_0000_0000_0000_0000

  datatype Task = Task(name: string, completed: bool)

  datatype Analysis = Analysis(patientId: string, content: string)

  datatype DailyProgress = DailyProgress(
    patientId: string,
    date: U64,
    tasks: seq<Task>,
    description: string)

  /** One `(patient_id, key)` pair of `viewing_keys`. */
  datatype ViewingKey = ViewingKey(patientId: string, key: string)

  /** The value stored under the key "state". */
  datatype State = State(
    analyses: seq<Analysis>,
    dailyProgress: seq<DailyProgress>,
    viewingKeys: seq<ViewingKey>)

  /** `a` is `b` cut short: `b` is `a` with more elements after it. */
  predicate IsPrefix<T(==)>(a: seq<T>, b: seq<T>) {
    |a| <= |b| && b[..|a|] == a
  }

  /** `t` holds every list of `s` as a prefix. */
  predicate Extends(s: State, t: State) {
    IsPrefix(s.analyses, t.analyses)
    && IsPrefix(s.dailyProgress, t.dailyProgress)
    && IsPrefix(s.viewingKeys, t.viewingKeys)
  }

  lemma ExtendsTransitive(s: State, t: State, u: State)
    requires Extends(s, t) && Extends(t, u)
    ensures Extends(s, u)
  {
    assert u.analyses[..|s.analyses|] == u.analyses[..|t.analyses|][..|s.analyses|];
    assert u.dailyProgress[..|s.dailyProgress|] == u.dailyProgress[..|t.dailyProgress|][..|s.dailyProgress|];
    assert u.viewingKeys[..|s.viewingKeys|] == u.viewingKeys[..|t.viewingKeys|][..|s.viewingKeys|];
  }
}
