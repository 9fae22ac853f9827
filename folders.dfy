/** Questions, folders and the case-insensitive search both folder pages apply
    to question lists. */
module Folders {
  import opened Wrappers
  import opened Text

  /** A question as the pages receive it: `id`, `question_text`, the optional
      `tag` and the `is_public` flag. Ids are compared with `===`. */
  datatype Question = Question(id: string, questionText: string, tag: Option<string>, isPublic: bool)

  datatype Folder = Folder(id: string, name: string, questions: seq<Question>)

  /** The folder API calls the pages issue, in the order they are issued. */
  datatype FolderRequest =
    | CreateFolder(name: string)
    | AddQuestion(folderId: string, questionId: string)
    | RenameFolder(folderId: string, newName: string)
    | RemoveQuestion(folderId: string, questionId: string)
    | ReloadFolders

  /** `a` is `b` with some elements left out and the rest in their order. */
  predicate IsSubsequence<T(==)>(a: seq<T>, b: seq<T>)
    decreases |b|
  {
    if a == [] then true
    else if b == [] then false
    else if a[0] == b[0] then IsSubsequence(a[1..], b[1..])
    else IsSubsequence(a, b[1..])
  }

  lemma {:induction false} IsSubsequenceMembers<T>(a: seq<T>, b: seq<T>)
    requires IsSubsequence(a, b)
    ensures forall x :: x in a ==> x in b
    decreases |b|
  {
    if a != [] && b != [] {
      if a[0] == b[0] {
        IsSubsequenceMembers(a[1..], b[1..]);
        assert forall x :: x in a ==> x == a[0] || x in a[1..];
      } else {
        IsSubsequenceMembers(a, b[1..]);
      }
    }
  }

  /** The search predicate: the lower-cased text contains the lower-cased term,
      or the question has a non-empty tag whose lower-cased form contains it. */
  function MatchesSearch(q: Question, term: string): (b: bool)
    ensures term == "" ==> b
    ensures Contains(Lower(q.questionText), Lower(term)) ==> b
    ensures (q.tag.None? || q.tag == Some("")) ==> (b <==> Contains(Lower(q.questionText), Lower(term)))
  {
    if term == "" then ContainsEmpty(Lower(q.questionText)); true
    else
      Contains(Lower(q.questionText), Lower(term))
      || (q.tag.Some? && q.tag.value != "" && Contains(Lower(q.tag.value), Lower(term)))
  }

  /** `questions.filter(q => MatchesSearch(q, term))`. */
  function FilterBySearch(qs: seq<Question>, term: string): (r: seq<Question>)
    ensures IsSubsequence(r, qs)
    ensures |r| <= |qs|
    ensures forall q :: q in r ==> MatchesSearch(q, term)
    ensures forall q :: q in qs && MatchesSearch(q, term) ==> q in r
    ensures forall q :: multiset(r)[q] == if MatchesSearch(q, term) then multiset(qs)[q] else 0
    decreases |qs|
  {
    if qs == [] then []
    else
      var rest := FilterBySearch(qs[1..], term);
      assert qs == [qs[0]] + qs[1..];
      if MatchesSearch(qs[0], term) then
        assert ([qs[0]] + rest)[1..] == rest;
        [qs[0]] + rest
      else
        assert rest == [] || rest[0] != qs[0];
        rest
  }

  /** Every question matches the empty search term. */
  lemma MatchesEmptyTerm(q: Question)
    ensures MatchesSearch(q, "")
  {
    ContainsEmpty(Lower(q.questionText));
  }

  /** An empty search keeps the whole list, in order. */
  lemma {:induction false} EmptySearchKeepsAll(qs: seq<Question>)
    ensures FilterBySearch(qs, "") == qs
    decreases |qs|
  {
    if qs != [] {
      MatchesEmptyTerm(qs[0]);
      EmptySearchKeepsAll(qs[1..]);
    }
  }

  /** The search ignores the case of ASCII letters in the term. */
  lemma SearchIgnoresTermCase(qs: seq<Question>, term: string)
    ensures FilterBySearch(qs, Lower(term)) == FilterBySearch(qs, term)
    decreases |qs|
  {
    LowerIdempotent(term);
    if qs != [] {
      SearchIgnoresTermCase(qs[1..], term);
    }
  }
}
