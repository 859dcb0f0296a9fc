/** `InteractionService`: the records the repository keeps, and the two ways
    of adding one. The repository is an append-only sequence; the store's
    identity column numbers the records 1, 2, 3, … in the order they are saved.
    The AI service is an input: `ai` maps a question to the answer it returns
    or to a thrown exception. */
module Interactions {
  import opened Wrappers
  import opened Domain

  /** `findById` against a list of stored records: the first record carrying
      the id, or nothing (`null` in the Java code). */
  function Find(records: seq<InteractionLog>, id: int): (r: Option<InteractionLog>)
    ensures r.Some? <==> exists k :: 0 <= k < |records| && records[k].id == Some(id)
    ensures r.Some? ==> r.value in records && r.value.id == Some(id)
  {
    if records == [] then None
    else if records[0].id == Some(id) then Some(records[0])
    else
      var r := Find(records[1..], id);
      assert forall k :: 1 <= k < |records| ==> records[k] == records[1..][k - 1];
      r
  }

  /** The ids the identity column hands out: the record at position `k`
      carries `k + 1`. */
  ghost predicate NumberedFromOne(records: seq<InteractionLog>) {
    forall k :: 0 <= k < |records| ==> records[k].id == Some(k + 1)
  }

  /** In a store numbered from one, the record with id `id` is the one at
      position `id - 1`, and there is none outside `1..|records|`. */
  lemma {:induction false} FindNumbered(records: seq<InteractionLog>, id: int)
    requires NumberedFromOne(records)
    ensures Find(records, id) == if 1 <= id <= |records| then Some(records[id - 1]) else None
  {
    if 1 <= id <= |records| {
      FindFirst(records, id - 1);
    }
  }

  /** A record whose id no earlier record carries is what `Find` returns. */
  lemma {:induction false} FindFirst(records: seq<InteractionLog>, k: nat)
    requires k < |records| && records[k].id.Some?
    requires forall j :: 0 <= j < k ==> records[j].id != records[k].id
    ensures Find(records, records[k].id.value) == Some(records[k])
  {
    if k > 0 {
      assert records[1..][k - 1] == records[k];
      FindFirst(records[1..], k - 1);
    }
  }

  /** Saving more records never changes what an id already stored finds. */
  lemma {:induction false} FindAfterAppend(records: seq<InteractionLog>, more: seq<InteractionLog>, id: int)
    requires Find(records, id).Some?
    ensures Find(records + more, id) == Find(records, id)
  {
    if records[0].id != Some(id) {
      assert (records + more)[1..] == records[1..] + more;
      FindAfterAppend(records[1..], more, id);
    }
  }

  class InteractionService {
    /** What the repository holds, in the order it was saved. */
    var records: seq<InteractionLog>
    /** Every question passed to the AI service so far, oldest first. */
    ghost var aiCalls: seq<string>

    ghost predicate Valid()
      reads this
    {
      NumberedFromOne(records)
    }

    constructor()
      ensures Valid() && records == [] && aiCalls == []
    {
      records := [];
      aiCalls := [];
    }

    /** `findById`: a stored record carrying the id, or nothing when no
        record carries it. */
    function FindById(id: int): (r: Option<InteractionLog>)
      reads this
      ensures r.Some? <==> exists k :: 0 <= k < |records| && records[k].id == Some(id)
      ensures r.Some? ==> r.value in records && r.value.id == Some(id)
    {
      Find(records, id)
    }

    /** `saveInitialInteraction`: one record is saved, with the question and
        no answer, and the saved record (now carrying its id) is returned. The
        AI service is not called. */
    method SaveInitialInteraction(question: string) returns (saved: InteractionLog)
      modifies this
      ensures saved == InteractionLog(Some(|old(records)| + 1), question, None)
      ensures records == old(records) + [saved]
      ensures aiCalls == old(aiCalls)
      ensures old(Valid()) ==> Valid() && FindById(|records|) == Some(saved)
    {
      saved := InteractionLog(Some(|records| + 1), question, None);
      records := records + [saved];
      if old(Valid()) {
        FindNumbered(records, |records|);
      }
    }

    /** `processQuestion`: the AI service is asked once, with the question as
        given. When it answers, exactly one record holding the question and
        that answer is saved and returned; when it throws, the exception
        propagates and nothing is saved, since the record is only built from
        an answer. */
    method ProcessQuestion(question: string, ai: string -> CallResult<string>)
      returns (result: CallResult<InteractionLog>)
      modifies this
      ensures aiCalls == old(aiCalls) + [question]
      ensures ai(question).Threw? ==> result.Threw? && records == old(records)
      ensures ai(question).Returned? ==>
        && result == Returned(InteractionLog(Some(|old(records)| + 1), question, Some(ai(question).value)))
        && records == old(records) + [result.value]
      ensures old(Valid()) ==> Valid()
      ensures old(Valid()) && result.Returned? ==> FindById(|records|) == Some(result.value)
    {
      aiCalls := aiCalls + [question];
      var reply := ai(question);
      if reply.Threw? {
        return Threw;
      }
      var saved := InteractionLog(Some(|records| + 1), question, Some(reply.value));
      records := records + [saved];
      result := Returned(saved);
      if old(Valid()) {
        FindNumbered(records, |records|);
      }
    }
  }
}
