/** The "my questions" page: the list of the user's own questions and the
    share button that makes one of them public. */
module MyQuestions {
  import opened Wrappers
  import opened Folders

  /** `prev.map(q => q.id === id ? { ...q, is_public: true } : q)`. */
  function MarkShared(qs: seq<Question>, id: string): (r: seq<Question>)
    ensures |r| == |qs|
    ensures forall i :: 0 <= i < |qs| && qs[i].id == id ==> r[i] == qs[i].(isPublic := true)
    ensures forall i :: 0 <= i < |qs| && qs[i].id != id ==> r[i] == qs[i]
    decreases |qs|
  {
    if qs == [] then []
    else
      var q := if qs[0].id == id then qs[0].(isPublic := true) else qs[0];
      var rest := MarkShared(qs[1..], id);
      assert forall i :: 1 <= i < |qs| ==> ([q] + rest)[i] == rest[i - 1] && qs[i] == qs[1..][i - 1];
      [q] + rest
  }

  /** The share flag is offered only for questions that are still private. */
  predicate ShareButtonShown(q: Question)
  {
    !q.isPublic
  }

  /** After sharing, every question with that id is public and no longer
      offers the button; ids, texts and tags stay where they were. */
  lemma SharedQuestionIsPublic(qs: seq<Question>, id: string)
    ensures forall q :: q in MarkShared(qs, id) && q.id == id ==> q.isPublic && !ShareButtonShown(q)
    ensures forall i :: 0 <= i < |qs| ==>
              MarkShared(qs, id)[i].id == qs[i].id && MarkShared(qs, id)[i].questionText == qs[i].questionText
              && MarkShared(qs, id)[i].tag == qs[i].tag
  {
  }

  /** Sharing the same id again changes nothing. */
  lemma MarkSharedIdempotent(qs: seq<Question>, id: string)
    ensures MarkShared(MarkShared(qs, id), id) == MarkShared(qs, id)
  {
  }

  /** Sharing an id that is not in the list, or whose questions are already
      public, leaves the list as it was. */
  lemma MarkSharedNoOp(qs: seq<Question>, id: string)
    requires forall q :: q in qs && q.id == id ==> q.isPublic
    ensures MarkShared(qs, id) == qs
  {
    forall i | 0 <= i < |qs| ensures MarkShared(qs, id)[i] == qs[i] {
      assert qs[i] in qs;
    }
  }

  /** Sharing two different ids commutes. */
  lemma MarkSharedCommutes(qs: seq<Question>, a: string, b: string)
    ensures MarkShared(MarkShared(qs, a), b) == MarkShared(MarkShared(qs, b), a)
  {
  }

  const LoadErrorPrefix := "加载失败: "
  const ShareErrorPrefix := "分享失败: "

  class MyQuestionPage {
    var questions: seq<Question>
    var error: string

    constructor ()
      ensures questions == [] && error == ""
    {
      questions, error := [], "";
    }

    /** `fetchQuestions`: the list, or the load error shown instead of it. */
    method FetchQuestions(outcome: Result<seq<Question>, string>)
      modifies this
      ensures outcome.Ok? ==> questions == outcome.value && error == old(error)
      ensures outcome.Err? ==> questions == old(questions) && error == LoadErrorPrefix + outcome.error
    {
      match outcome {
        case Ok(data) => questions := data;
        case Err(e) => error := LoadErrorPrefix + e;
      }
    }

    /** `handleShare`. On success the list is updated in place of the old one;
        on failure the list stays and the returned alert text is shown. */
    method HandleShare(id: string, failure: Option<string>) returns (alertText: Option<string>)
      modifies this
      ensures failure.None? ==> questions == MarkShared(old(questions), id) && alertText == None
      ensures failure.Some? ==> questions == old(questions) && alertText == Some(ShareErrorPrefix + failure.value)
      ensures error == old(error)
    {
      if failure.None? {
        questions := MarkShared(questions, id);
        alertText := None;
      } else {
        alertText := Some(ShareErrorPrefix + failure.value);
      }
    }

    /** The ids whose share button is rendered, in list order. */
    function OfferedIds(): (ids: seq<string>)
      reads this
      ensures forall id :: id in ids <==> exists q :: q in questions && ShareButtonShown(q) && q.id == id
    {
      OfferedIdsOf(questions)
    }
  }

  function OfferedIdsOf(qs: seq<Question>): (ids: seq<string>)
    ensures forall id :: id in ids <==> exists q :: q in qs && ShareButtonShown(q) && q.id == id
    decreases |qs|
  {
    if qs == [] then []
    else
      var rest := OfferedIdsOf(qs[1..]);
      assert forall q :: q in qs <==> q == qs[0] || q in qs[1..];
      if ShareButtonShown(qs[0]) then [qs[0].id] + rest else rest
  }

  /** Once a share succeeds its id is no longer offered. */
  lemma SharedIdNotOffered(qs: seq<Question>, id: string)
    ensures id !in OfferedIdsOf(MarkShared(qs, id))
  {
    SharedQuestionIsPublic(qs, id);
  }
}
