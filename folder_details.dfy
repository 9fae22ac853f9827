/** The folder detail page: locating the folder, the questions that can still
    be added, renaming, adding and removing, and the modal and edit resets. */
module FolderDetails {
  import opened Wrappers
  import opened Text
  import opened Folders

  // ---------------------------------------------------------------------------
  // Pure parts
  // ---------------------------------------------------------------------------

  /** `data.find(f => f.id === folderId)`: the first folder with that id. */
  function FindFolder(data: seq<Folder>, id: string): (r: Option<Folder>)
    ensures r.None? <==> forall f :: f in data ==> f.id != id
    ensures r.Some? ==> exists i :: 0 <= i < |data| && data[i] == r.value && r.value.id == id
                                    && forall j :: 0 <= j < i ==> data[j].id != id
    decreases |data|
  {
    if data == [] then None
    else if data[0].id == id then Some(data[0])
    else
      var r := FindFolder(data[1..], id);
      if r.Some? then
        var i :| 0 <= i < |data[1..]| && data[1..][i] == r.value && r.value.id == id
                 && forall j :: 0 <= j < i ==> data[1..][j].id != id;
        assert data[i + 1] == r.value;
        assert forall j :: 0 <= j < i + 1 ==> data[j].id != id by {
          forall j | 0 <= j < i + 1 ensures data[j].id != id {
            if j > 0 { assert data[j] == data[1..][j - 1]; }
          }
        }
        r
      else
        r
  }

  /** `folder.questions.some(fq => fq.id === id)`. */
  predicate HasId(qs: seq<Question>, id: string)
  {
    exists i :: 0 <= i < |qs| && qs[i].id == id
  }

  /** `allQuestions.filter(q => !HasId(folder.questions, q.id))`. */
  function ExcludeFolderQuestions(all: seq<Question>, inFolder: seq<Question>): (r: seq<Question>)
    ensures IsSubsequence(r, all)
    ensures forall q :: q in r ==> !HasId(inFolder, q.id)
    ensures forall q :: q in all && !HasId(inFolder, q.id) ==> q in r
    ensures forall q :: multiset(r)[q] == if HasId(inFolder, q.id) then 0 else multiset(all)[q]
    decreases |all|
  {
    if all == [] then []
    else
      var rest := ExcludeFolderQuestions(all[1..], inFolder);
      assert all == [all[0]] + all[1..];
      if !HasId(inFolder, all[0].id) then
        assert ([all[0]] + rest)[1..] == rest;
        [all[0]] + rest
      else
        assert rest == [] || rest[0] != all[0];
        rest
  }

  /** The offered questions and the folder's questions have no id in common,
      so no question of the folder is offered again. */
  lemma AvailableIsDisjoint(all: seq<Question>, inFolder: seq<Question>)
    ensures forall q, fq :: q in ExcludeFolderQuestions(all, inFolder) && fq in inFolder ==> q.id != fq.id
    ensures forall q :: q in ExcludeFolderQuestions(all, inFolder) ==> q !in inFolder
  {
    var r := ExcludeFolderQuestions(all, inFolder);
    forall q, fq | q in r && fq in inFolder ensures q.id != fq.id {
      var i :| 0 <= i < |inFolder| && inFolder[i] == fq;
      assert !HasId(inFolder, q.id);
    }
  }

  /** A folder without questions excludes nothing. */
  lemma {:induction false} EmptyFolderExcludesNothing(all: seq<Question>)
    ensures ExcludeFolderQuestions(all, []) == all
    decreases |all|
  {
    if all != [] {
      EmptyFolderExcludesNothing(all[1..]);
    }
  }

  // ---------------------------------------------------------------------------
  // The page
  // ---------------------------------------------------------------------------

  const MissingFolderMessage := "❌ 文件夹不存在"
  const EmptyNameMessage := "❌ 文件夹名称不能为空"
  const RenamedMessage := "✅ 重命名成功！"
  const NoSelectionMessage := "❌ 请选择一个问题"
  const AddedMessage := "✅ 添加成功！"
  const RemovedMessage := "✅ 移除成功！"

  class FolderDetailsPage {
    const folderId: string
    var folder: Option<Folder>
    var newName: string
    var isEditing: bool
    var message: string
    var allQuestions: seq<Question>
    var selectedQuestionId: string
    var searchTerm: string
    var showAddModal: bool

    constructor (folderId: string)
      ensures this.folderId == folderId && folder == None && newName == "" && !isEditing
      ensures message == "" && allQuestions == [] && selectedQuestionId == "" && searchTerm == ""
      ensures !showAddModal
    {
      this.folderId := folderId;
      folder, newName, isEditing, message := None, "", false, "";
      allQuestions, selectedQuestionId, searchTerm, showAddModal := [], "", "", false;
    }

    /** `loadFolder`. `outcome` is the folder list or the request's error. */
    method LoadFolder(outcome: Result<seq<Folder>, string>)
      modifies this
      ensures outcome.Ok? && FindFolder(outcome.value, folderId).Some? ==>
                folder == FindFolder(outcome.value, folderId) && newName == folder.value.name
                && message == old(message)
      ensures outcome.Ok? && FindFolder(outcome.value, folderId).None? ==>
                folder == old(folder) && newName == old(newName) && message == MissingFolderMessage
      ensures outcome.Err? ==> folder == old(folder) && newName == old(newName) && message == "❌ " + outcome.error
      ensures isEditing == old(isEditing) && allQuestions == old(allQuestions)
      ensures selectedQuestionId == old(selectedQuestionId) && searchTerm == old(searchTerm)
      ensures showAddModal == old(showAddModal)
    {
      match outcome {
        case Ok(data) =>
          var found := FindFolder(data, folderId);
          if found.Some? {
            folder := found;
            newName := found.value.name;
          } else {
            message := MissingFolderMessage;
          }
        case Err(e) =>
          message := "❌ " + e;
      }
    }

    /** `loadAllQuestions`: a failed request is only logged. */
    method LoadAllQuestions(outcome: Result<seq<Question>, string>)
      modifies this
      ensures outcome.Ok? ==> allQuestions == outcome.value
      ensures outcome.Err? ==> allQuestions == old(allQuestions)
      ensures folder == old(folder) && newName == old(newName) && message == old(message)
      ensures isEditing == old(isEditing) && selectedQuestionId == old(selectedQuestionId)
      ensures searchTerm == old(searchTerm) && showAddModal == old(showAddModal)
    {
      if outcome.Ok? {
        allQuestions := outcome.value;
      }
    }

    /** `availableQuestions`: shown once the folder is loaded. */
    function AvailableQuestions(): (r: seq<Question>)
      reads this
      requires folder.Some?
      ensures IsSubsequence(r, allQuestions)
      ensures forall q :: q in allQuestions ==> (q in r <==> !HasId(folder.value.questions, q.id))
      ensures forall q :: multiset(r)[q] == if HasId(folder.value.questions, q.id) then 0 else multiset(allQuestions)[q]
    {
      ExcludeFolderQuestions(allQuestions, folder.value.questions)
    }

    /** `filteredAvailableQuestions`: the search applied to the offered list. */
    function FilteredAvailableQuestions(): (r: seq<Question>)
      reads this
      requires folder.Some?
      ensures IsSubsequence(r, AvailableQuestions())
      ensures forall q :: q in AvailableQuestions() ==> (q in r <==> MatchesSearch(q, searchTerm))
      ensures forall q :: multiset(r)[q] ==
                if HasId(folder.value.questions, q.id) || !MatchesSearch(q, searchTerm) then 0 else multiset(allQuestions)[q]
    {
      FilterBySearch(AvailableQuestions(), searchTerm)
    }

    /** `handleRename`. A name that trims to nothing sends nothing; otherwise the
        untrimmed name is sent, and on success editing ends and the folder is
        reloaded. `failure` is the rename request's error, if it threw. */
    method HandleRename(failure: Option<string>) returns (requests: seq<FolderRequest>)
      modifies this
      ensures Trim(old(newName)) == "" ==>
                requests == [] && message == EmptyNameMessage && isEditing == old(isEditing)
      ensures Trim(old(newName)) != "" && failure.None? ==>
                requests == [RenameFolder(folderId, old(newName)), ReloadFolders]
                && message == RenamedMessage && !isEditing
      ensures Trim(old(newName)) != "" && failure.Some? ==>
                requests == [RenameFolder(folderId, old(newName))]
                && message == "❌ " + failure.value && isEditing == old(isEditing)
      ensures folder == old(folder) && newName == old(newName) && allQuestions == old(allQuestions)
      ensures selectedQuestionId == old(selectedQuestionId) && searchTerm == old(searchTerm)
      ensures showAddModal == old(showAddModal)
    {
      if Trim(newName) == "" {
        message := EmptyNameMessage;
        return [];
      }
      requests := [RenameFolder(folderId, newName)];
      if failure.None? {
        message := RenamedMessage;
        isEditing := false;
        requests := requests + [ReloadFolders];
      } else {
        message := "❌ " + failure.value;
      }
    }

    /** `handleAddQuestion`. Without a selection nothing is sent; on success the
        selection and the search term are cleared, the modal closes and the
        folder is reloaded. */
    method HandleAddQuestion(failure: Option<string>) returns (requests: seq<FolderRequest>)
      modifies this
      ensures old(selectedQuestionId) == "" ==>
                requests == [] && message == NoSelectionMessage
                && selectedQuestionId == old(selectedQuestionId) && searchTerm == old(searchTerm)
                && showAddModal == old(showAddModal)
      ensures old(selectedQuestionId) != "" && failure.None? ==>
                requests == [AddQuestion(folderId, old(selectedQuestionId)), ReloadFolders]
                && message == AddedMessage && selectedQuestionId == "" && searchTerm == "" && !showAddModal
      ensures old(selectedQuestionId) != "" && failure.Some? ==>
                requests == [AddQuestion(folderId, old(selectedQuestionId))]
                && message == "❌ " + failure.value
                && selectedQuestionId == old(selectedQuestionId) && searchTerm == old(searchTerm)
                && showAddModal == old(showAddModal)
      ensures folder == old(folder) && newName == old(newName) && isEditing == old(isEditing)
      ensures allQuestions == old(allQuestions)
    {
      if selectedQuestionId == "" {
        message := NoSelectionMessage;
        return [];
      }
      requests := [AddQuestion(folderId, selectedQuestionId)];
      if failure.None? {
        message := AddedMessage;
        selectedQuestionId := "";
        searchTerm := "";
        showAddModal := false;
        requests := requests + [ReloadFolders];
      } else {
        message := "❌ " + failure.value;
      }
    }

    /** `handleRemoveQuestion`: nothing happens unless the prompt is confirmed. */
    method HandleRemoveQuestion(questionId: string, confirmed: bool, failure: Option<string>)
      returns (requests: seq<FolderRequest>)
      modifies this
      ensures !confirmed ==> requests == [] && message == old(message)
      ensures confirmed && failure.None? ==>
                requests == [RemoveQuestion(folderId, questionId), ReloadFolders] && message == RemovedMessage
      ensures confirmed && failure.Some? ==>
                requests == [RemoveQuestion(folderId, questionId)] && message == "❌ " + failure.value
      ensures folder == old(folder) && newName == old(newName) && isEditing == old(isEditing)
      ensures allQuestions == old(allQuestions) && selectedQuestionId == old(selectedQuestionId)
      ensures searchTerm == old(searchTerm) && showAddModal == old(showAddModal)
    {
      if !confirmed {
        return [];
      }
      requests := [RemoveQuestion(folderId, questionId)];
      if failure.None? {
        message := RemovedMessage;
        requests := requests + [ReloadFolders];
      } else {
        message := "❌ " + failure.value;
      }
    }

    method StartEditing()
      modifies this
      ensures isEditing
      ensures folder == old(folder) && newName == old(newName) && message == old(message)
      ensures allQuestions == old(allQuestions) && selectedQuestionId == old(selectedQuestionId)
      ensures searchTerm == old(searchTerm) && showAddModal == old(showAddModal)
    {
      isEditing := true;
    }

    /** The cancel button of the rename form, which is only shown once the
        folder is loaded: editing ends and the typed name is discarded. */
    method CancelEdit()
      requires folder.Some?
      modifies this
      ensures folder == old(folder) && !isEditing && newName == folder.value.name
      ensures message == old(message)
      ensures allQuestions == old(allQuestions) && selectedQuestionId == old(selectedQuestionId)
      ensures searchTerm == old(searchTerm) && showAddModal == old(showAddModal)
    {
      isEditing := false;
      newName := folder.value.name;
    }

    method OpenAddModal()
      modifies this
      ensures showAddModal
      ensures folder == old(folder) && newName == old(newName) && isEditing == old(isEditing)
      ensures message == old(message) && allQuestions == old(allQuestions)
      ensures selectedQuestionId == old(selectedQuestionId) && searchTerm == old(searchTerm)
    {
      showAddModal := true;
    }

    /** Clicking an offered question selects it (replacing any earlier choice). */
    method SelectQuestion(id: string)
      modifies this
      ensures selectedQuestionId == id
      ensures folder == old(folder) && newName == old(newName) && isEditing == old(isEditing)
      ensures message == old(message) && allQuestions == old(allQuestions)
      ensures searchTerm == old(searchTerm) && showAddModal == old(showAddModal)
    {
      selectedQuestionId := id;
    }

    /** The search box of the modal. */
    method SetSearchTerm(term: string)
      modifies this
      ensures searchTerm == term
      ensures folder == old(folder) && newName == old(newName) && isEditing == old(isEditing)
      ensures message == old(message) && allQuestions == old(allQuestions)
      ensures selectedQuestionId == old(selectedQuestionId) && showAddModal == old(showAddModal)
    {
      searchTerm := term;
    }

    /** Both the close button and the cancel button of the modal: it closes
        and forgets the search term and the selection. */
    method CloseAddModal()
      modifies this
      ensures !showAddModal && searchTerm == "" && selectedQuestionId == ""
      ensures folder == old(folder) && newName == old(newName) && isEditing == old(isEditing)
      ensures message == old(message) && allQuestions == old(allQuestions)
    {
      showAddModal := false;
      searchTerm := "";
      selectedQuestionId := "";
    }
  }

  /** Reopening the modal after it was closed shows the whole offered list:
      the closing reset the search term. */
  method CloseThenReopen(page: FolderDetailsPage) returns (offered: seq<Question>)
    requires page.folder.Some?
    modifies page
    ensures page.folder == old(page.folder)
    ensures page.showAddModal && page.selectedQuestionId == ""
    ensures offered == page.FilteredAvailableQuestions()
    ensures offered == page.AvailableQuestions()
  {
    page.CloseAddModal();
    page.OpenAddModal();
    offered := page.FilteredAvailableQuestions();
    EmptySearchKeepsAll(page.AvailableQuestions());
  }
}
