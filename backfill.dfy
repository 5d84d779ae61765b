/**
 * The read path of the API service (`get_analyses` in api/api.py): every
 * stored analysis record whose habit list is missing or empty is given a
 * fixed list of two habits before the records are returned; every other
 * record is returned as stored.
 *
 * The record content is the already-parsed JSON object, so decoding and
 * re-encoding are the identity here. `BackfillAll` specifies the pass over
 * the records and `Backfill` is the source's in-place loop over them.
 */
module Backfill {
  import opened Wrappers
  import opened Extractor

  /** The parsed `content` of one stored record: the two keys the extractor
      writes, each of which may be absent (`None`). */
  datatype StoredContent = StoredContent(
    generalAnalysis: Option<string>,
    recommendedHabits: Option<seq<Habit>>)

  /** One record as the contract returns it: the patient and the content. */
  datatype StoredRecord = StoredRecord(patientId: string, content: StoredContent)

  /** The two habits written into a record that has none. */
  const DefaultHabits: seq<Habit> := [
    Habit(
      "Gradual Exposure",
      "Start with small, manageable social interactions",
      ["Begin with brief interactions",
       "Practice with trusted friends/family",
       "Gradually increase duration and complexity"],
      "Based on exposure therapy principles"),
    Habit(
      "Self-Compassion Practice",
      "Develop a kinder inner dialogue",
      ["Notice negative self-talk",
       "Challenge unrealistic thoughts",
       "Practice positive self-affirmations"],
      "Based on cognitive behavioral therapy")
  ]

  /** `not content.get("recommended_habits")`: the key is absent or its list is empty. */
  predicate LacksHabits(c: StoredContent) {
    c.recommendedHabits.None? || c.recommendedHabits.value == []
  }

  /** The content of one record after the pass. */
  function BackfillContent(c: StoredContent): (r: StoredContent)
    ensures r.generalAnalysis == c.generalAnalysis
    ensures LacksHabits(c) ==> r.recommendedHabits == Some(DefaultHabits)
    ensures !LacksHabits(c) ==> r == c
    ensures !LacksHabits(r)
  {
    if LacksHabits(c) then c.(recommendedHabits := Some(DefaultHabits)) else c
  }

  function BackfillRecord(rec: StoredRecord): StoredRecord {
    rec.(content := BackfillContent(rec.content))
  }

  /** The whole pass: the same records, in the same order, each backfilled. */
  function BackfillAll(records: seq<StoredRecord>): (r: seq<StoredRecord>)
    ensures |r| == |records|
    ensures forall i :: 0 <= i < |r| ==>
      r[i].patientId == records[i].patientId && r[i].content.generalAnalysis == records[i].content.generalAnalysis
    ensures forall i :: 0 <= i < |r| ==> !LacksHabits(records[i].content) ==> r[i] == records[i]
    ensures forall i :: 0 <= i < |r| ==> LacksHabits(records[i].content) ==> r[i].content.recommendedHabits == Some(DefaultHabits)
    ensures forall i :: 0 <= i < |r| ==> !LacksHabits(r[i].content)
  {
    if records == [] then [] else [BackfillRecord(records[0])] + BackfillAll(records[1..])
  }

  /** The loop of `get_analyses` over the records the contract returned,
      rewriting each record that has no habits in place. */
  method Backfill(result: array<StoredRecord>)
    modifies result
    ensures result[..] == BackfillAll(old(result[..]))
  {
    for i := 0 to result.Length
      invariant forall k :: 0 <= k < i ==> result[k] == BackfillRecord(old(result[k]))
      invariant forall k :: i <= k < result.Length ==> result[k] == old(result[k])
    {
      var content := result[i].content;
      if content.recommendedHabits.None? || content.recommendedHabits.value == [] {
        content := content.(recommendedHabits := Some(DefaultHabits));
        result[i] := result[i].(content := content);
      }
    }
  }

  /** The fixed list: two habits, "Gradual Exposure" and "Self-Compassion
      Practice", three steps each. */
  lemma DefaultHabitsShape()
    ensures |DefaultHabits| == 2
    ensures DefaultHabits[0].name == "Gradual Exposure"
    ensures DefaultHabits[1].name == "Self-Compassion Practice"
    ensures forall h :: h in DefaultHabits ==> |h.implementation| == 3
  {
  }

  /** Running the pass twice is running it once. */
  lemma {:induction false} BackfillIdempotent(records: seq<StoredRecord>)
    ensures BackfillAll(BackfillAll(records)) == BackfillAll(records)
  {
    var once := BackfillAll(records);
    forall i | 0 <= i < |once|
      ensures BackfillAll(once)[i] == once[i]
    {
      assert !LacksHabits(once[i].content);
    }
  }

  /** The pass leaves a list whose every record has habits as it is. */
  lemma {:induction false} BackfillKeepsComplete(records: seq<StoredRecord>)
    requires forall r :: r in records ==> !LacksHabits(r.content)
    ensures BackfillAll(records) == records
  {
    forall i | 0 <= i < |records|
      ensures BackfillAll(records)[i] == records[i]
    {
      assert records[i] in records;
    }
  }
}
