/** The folder creation form: selecting questions, searching them, and the
    submit handler that creates the folder and then adds the selection. */
module FolderCreate {
  import opened Wrappers
  import opened Text
  import opened Folders

  // ---------------------------------------------------------------------------
  // Selection toggle
  // ---------------------------------------------------------------------------

  /** `selected.filter(id => id !== x)`. */
  function RemoveAll(s: seq<string>, x: string): (r: seq<string>)
    ensures x !in r
    ensures forall y :: y != x ==> (y in r <==> y in s)
    ensures IsSubsequence(r, s)
    ensures forall y :: multiset(r)[y] == if y == x then 0 else multiset(s)[y]
    decreases |s|
  {
    if s == [] then []
    else
      var rest := RemoveAll(s[1..], x);
      assert s == [s[0]] + s[1..];
      if s[0] == x then
        assert rest == [] || rest[0] != s[0];
        rest
      else
        assert ([s[0]] + rest)[1..] == rest;
        [s[0]] + rest
  }

  /** `toggleQuestion`: drop every occurrence of a selected id, or append an
      unselected one at the end. */
  function Toggle(selected: seq<string>, id: string): (r: seq<string>)
    ensures id in r <==> id !in selected
    ensures forall y :: y != id ==> multiset(r)[y] == multiset(selected)[y]
    ensures id !in selected ==> |r| == |selected| + 1 && r[..|selected|] == selected && r[|selected|] == id
  {
    if id in selected then RemoveAll(selected, id) else selected + [id]
  }

  lemma {:induction false} RemoveAllAbsent(s: seq<string>, x: string)
    requires x !in s
    ensures RemoveAll(s, x) == s
    decreases |s|
  {
    if s != [] {
      RemoveAllAbsent(s[1..], x);
    }
  }

  lemma {:induction false} RemoveAllAppend(s: seq<string>, x: string)
    ensures RemoveAll(s + [x], x) == RemoveAll(s, x)
    decreases |s|
  {
    if s == [] {
      assert [x][1..] == [];
    } else {
      assert (s + [x])[1..] == s[1..] + [x];
      RemoveAllAppend(s[1..], x);
    }
  }

  /** A toggle flips the membership of the toggled id and of no other. */
  lemma ToggleFlipsMembership(selected: seq<string>, id: string)
    ensures id in Toggle(selected, id) <==> id !in selected
    ensures forall y :: y != id ==> (y in Toggle(selected, id) <==> y in selected)
  {
  }

  /** The other ids keep their relative order: with the toggled id taken out,
      the list before and after the toggle is the same. */
  lemma ToggleKeepsOthersInOrder(selected: seq<string>, id: string)
    ensures RemoveAll(Toggle(selected, id), id) == RemoveAll(selected, id)
  {
    if id in selected {
      RemoveAllAbsent(RemoveAll(selected, id), id);
    } else {
      RemoveAllAppend(selected, id);
    }
  }

  /** Toggling an unselected id twice gives back exactly the original list. */
  lemma ToggleTwiceRestores(selected: seq<string>, id: string)
    requires id !in selected
    ensures Toggle(Toggle(selected, id), id) == selected
  {
    RemoveAllAppend(selected, id);
    RemoveAllAbsent(selected, id);
  }

  predicate NoDuplicates(s: seq<string>)
  {
    forall i, j :: 0 <= i < j < |s| ==> s[i] != s[j]
  }

  lemma {:induction false} RemoveAllKeepsNoDuplicates(s: seq<string>, x: string)
    requires NoDuplicates(s)
    ensures NoDuplicates(RemoveAll(s, x))
    decreases |s|
  {
    if s != [] {
      RemoveAllKeepsNoDuplicates(s[1..], x);
      var rest := RemoveAll(s[1..], x);
      assert s[0] !in s[1..] by {
        forall j | 0 <= j < |s[1..]| ensures s[1..][j] != s[0] {
          assert s[1..][j] == s[j + 1];
        }
      }
      assert s[0] !in rest;
    }
  }

  /** A selection without duplicates stays without duplicates. */
  lemma ToggleKeepsNoDuplicates(selected: seq<string>, id: string)
    requires NoDuplicates(selected)
    ensures NoDuplicates(Toggle(selected, id))
  {
    if id in selected {
      RemoveAllKeepsNoDuplicates(selected, id);
    }
  }

  // ---------------------------------------------------------------------------
  // Adding the selection
  // ---------------------------------------------------------------------------

  function AddRequests(folderId: string, ids: seq<string>): (r: seq<FolderRequest>)
    ensures |r| == |ids|
    ensures forall i :: 0 <= i < |ids| ==> r[i] == AddQuestion(folderId, ids[i])
  {
    seq(|ids|, i requires 0 <= i < |ids| => AddQuestion(folderId, ids[i]))
  }

  /** The `for ... of` loop of `handleSubmit`: one awaited add per selected id,
      in selection order, stopping after the first add that throws. `failsAt`
      is the position of that add (if any) and `failure` its message. */
  method AddSelected(folderId: string, selected: seq<string>, failsAt: Option<nat>, failure: string)
    returns (issued: seq<FolderRequest>, error: Option<string>)
    ensures var n := if failsAt.Some? && failsAt.value < |selected| then failsAt.value + 1 else |selected|;
            issued == AddRequests(folderId, selected[..n])
    ensures error.Some? <==> failsAt.Some? && failsAt.value < |selected|
    ensures error.Some? ==> error.value == failure
    ensures error.None? ==> |issued| == |selected|
                            && forall i :: 0 <= i < |selected| ==> issued[i] == AddQuestion(folderId, selected[i])
  {
    issued, error := [], None;
    var i := 0;
    while i < |selected|
      invariant 0 <= i <= |selected|
      invariant issued == AddRequests(folderId, selected[..i])
      invariant failsAt.Some? ==> failsAt.value >= i
    {
      issued := issued + [AddQuestion(folderId, selected[i])];
      if failsAt == Some(i) {
        error := Some(failure);
        assert issued == AddRequests(folderId, selected[..i + 1]);
        return;
      }
      i := i + 1;
    }
    assert selected[..i] == selected;
  }

  // ---------------------------------------------------------------------------
  // The form
  // ---------------------------------------------------------------------------

  const EmptyNameMessage := "❌ 请输入文件夹名称"
  const CreatedMessage := "✅ 文件夹创建成功！"

  class FolderCreateForm {
    var folderName: string
    var allQuestions: seq<Question>
    var selectedQuestions: seq<string>
    var searchTerm: string
    var message: string
    var isCreating: bool

    constructor ()
      ensures folderName == "" && allQuestions == [] && selectedQuestions == [] && searchTerm == ""
      ensures message == "" && !isCreating
    {
      folderName, allQuestions, selectedQuestions, searchTerm := "", [], [], "";
      message, isCreating := "", false;
    }

    /** `toggleQuestion`: replaces the selection and nothing else. */
    method ToggleQuestion(id: string)
      modifies this
      ensures selectedQuestions == Toggle(old(selectedQuestions), id)
      ensures folderName == old(folderName) && allQuestions == old(allQuestions)
      ensures searchTerm == old(searchTerm) && message == old(message) && isCreating == old(isCreating)
    {
      if id in selectedQuestions {
        selectedQuestions := RemoveAll(selectedQuestions, id);
      } else {
        selectedQuestions := selectedQuestions + [id];
      }
    }

    /** `filteredQuestions`, recomputed from the state on every render. */
    function FilteredQuestions(): (r: seq<Question>)
      reads this
      ensures IsSubsequence(r, allQuestions)
      ensures forall q :: q in allQuestions ==> (q in r <==> MatchesSearch(q, searchTerm))
      ensures forall q :: multiset(r)[q] == if MatchesSearch(q, searchTerm) then multiset(allQuestions)[q] else 0
    {
      FilterBySearch(allQuestions, searchTerm)
    }

    /** `handleSubmit`. A name that trims to nothing only sets an error. Otherwise
        the folder is created under the untrimmed name and the selection is added
        in order; the first failure stops the sequence and its message is shown.
        `created` is the new folder's id or the creation error; the result says
        which requests went out and whether the page moves on to the folder list. */
    method HandleSubmit(created: Result<string, string>, failsAt: Option<nat>, failure: string)
      returns (requests: seq<FolderRequest>, toFolderList: bool)
      modifies this
      ensures Trim(old(folderName)) == "" ==> requests == [] && !toFolderList && message == EmptyNameMessage
      ensures Trim(old(folderName)) != "" && created.Err? ==>
                requests == [CreateFolder(old(folderName))] && !toFolderList && message == "❌ " + created.error
      ensures Trim(old(folderName)) != "" && created.Ok? ==>
                var failed := failsAt.Some? && failsAt.value < |old(selectedQuestions)|;
                var n := if failed then failsAt.value + 1 else |old(selectedQuestions)|;
                requests == [CreateFolder(old(folderName))] + AddRequests(created.value, old(selectedQuestions)[..n])
                && (toFolderList <==> !failed)
                && message == (if failed then "❌ " + failure else CreatedMessage)
      ensures Trim(old(folderName)) == "" ==> isCreating == old(isCreating)
      ensures Trim(old(folderName)) != "" ==> !isCreating
      ensures folderName == old(folderName) && selectedQuestions == old(selectedQuestions)
      ensures allQuestions == old(allQuestions) && searchTerm == old(searchTerm)
    {
      if Trim(folderName) == "" {
        message := EmptyNameMessage;
        requests, toFolderList := [], false;
        return;
      }
      isCreating := true;
      message := "";
      requests := [CreateFolder(folderName)];
      toFolderList := false;
      match created {
        case Err(e) =>
          message := "❌ " + e;
        case Ok(folderId) =>
          var issued, error := AddSelected(folderId, selectedQuestions, failsAt, failure);
          requests := requests + issued;
          if error.Some? {
            message := "❌ " + error.value;
          } else {
            message := CreatedMessage;
            toFolderList := true;
          }
      }
      isCreating := false;
    }
  }
}
