/** The note-state synchroniser of the notepad client's `App` component: four
    state slots (`notes`, `selectedNote`, `isLoading`, `error`) and four
    handlers (`fetchNotes`, `fetchNote`, `deleteNote`, `createNote`).

    Each handler's call to the remote store is replaced by a parameter, the
    store's `Reply`, and by an out-parameter listing the requests the
    handler issued. Each handler is one atomic step; the step functions
    below say what that step does to a snapshot of the state, and the
    methods of class `App` perform it field by field. */
module Sync {
  import opened Notes

  /** What one store request came back with: a parsed body, a response
      whose status was not ok (with its status text), or an exception
      thrown by the network or by body parsing (with its message). */
  datatype Reply<T> = Ok(data: T) | NotOk(statusText: string) | Threw(message: string)

  /** The store requests a handler issues. */
  datatype Request =
    | List
    | Get(id: int)
    | Delete(id: int)
    | Post(name: string, description: string)

  /** A snapshot of the component's four state slots. */
  datatype State = State(
    notes: seq<Note>,
    selectedNote: Option<Note>,
    isLoading: bool,
    error: string)

  const LoadNotesFailed := "Failed to load notes"
  const FetchNoteFailed := "Failed to fetch note"
  const DeleteNoteFailed := "Failed to delete note"
  const EmptyName := "Note name cannot be empty."
  const CreateFailedPrefix := "Failed to create note: "

  /** The state the component starts in. */
  const Initial := State([], None, true, "")

  // ---------------------------------------------------------------------
  // The handlers as steps on a snapshot
  // ---------------------------------------------------------------------

  /** `fetchNotes`: on success the list is replaced wholesale and its first
      note is selected, whatever was selected before; on failure the list
      and the selection stay and the error is set. A successful load does
      not clear an earlier error. The loading flag ends false either way. */
  function FetchNotesStep(s: State, reply: Reply<seq<Note>>): (r: State)
    ensures !r.isLoading
    ensures reply.Ok? ==> r.notes == reply.data && r.error == s.error
    ensures reply.Ok? && reply.data != [] ==> r.selectedNote == Some(reply.data[0])
    ensures reply.Ok? && reply.data == [] ==> r.selectedNote == s.selectedNote
    ensures !reply.Ok? ==>
              r.notes == s.notes && r.selectedNote == s.selectedNote &&
              r.error == LoadNotesFailed
  {
    match reply
    case Ok(data) =>
      s.(notes := data,
         selectedNote := if |data| > 0 then Some(data[0]) else s.selectedNote,
         isLoading := false)
    case _ =>
      s.(error := LoadNotesFailed, isLoading := false)
  }

  /** `fetchNote(id)`: on success the returned note becomes the selection;
      on failure the selection stays and the error is set. The list and the
      loading flag are never touched. */
  function FetchNoteStep(s: State, reply: Reply<Note>): (r: State)
    ensures r.notes == s.notes && r.isLoading == s.isLoading
    ensures reply.Ok? ==> r.selectedNote == Some(reply.data) && r.error == s.error
    ensures !reply.Ok? ==> r.selectedNote == s.selectedNote && r.error == FetchNoteFailed
  {
    match reply
    case Ok(note) => s.(selectedNote := Some(note))
    case _ => s.(error := FetchNoteFailed)
  }

  /** Whether the selection is a note with id `id`. */
  predicate SelectedIs(selected: Option<Note>, id: int)
  {
    selected.Some? && selected.value.id == id
  }

  /** `deleteNote(id)`: on success every note with id `id` leaves the list,
      the others keep their order, and the selection is cleared exactly when
      it is the deleted note; on failure the list and the selection stay and
      the error is set. The loading flag is never touched. */
  function DeleteNoteStep(s: State, id: int, reply: Reply<()>): (r: State)
    ensures r.isLoading == s.isLoading
    ensures reply.Ok? ==> r.notes == WithoutId(s.notes, id)
    ensures reply.Ok? ==>
              (forall n :: n in r.notes <==> n in s.notes && n.id != id) &&
              |r.notes| == |s.notes| - CountId(s.notes, id) &&
              r.error == s.error
    ensures reply.Ok? ==> !SelectedIs(r.selectedNote, id)
    ensures reply.Ok? ==>
              (r.selectedNote == None <==> s.selectedNote == None || SelectedIs(s.selectedNote, id))
    ensures reply.Ok? && !SelectedIs(s.selectedNote, id) ==> r.selectedNote == s.selectedNote
    ensures !reply.Ok? ==>
              r.notes == s.notes && r.selectedNote == s.selectedNote &&
              r.error == DeleteNoteFailed
  {
    WithoutIdMembers(s.notes, id);
    match reply
    case Ok(_) =>
      s.(notes := WithoutId(s.notes, id),
         selectedNote := if SelectedIs(s.selectedNote, id) then None else s.selectedNote)
    case _ =>
      s.(error := DeleteNoteFailed)
  }

  /** The error `createNote` reports when the POST fails: its own prefix in
      front of the thrown error's message, and for a non-ok status that
      message is itself the prefix followed by the status text. */
  function CreateFailure(reply: Reply<()>): (e: string)
    requires !reply.Ok?
    ensures reply.NotOk? ==> e == CreateFailedPrefix + CreateFailedPrefix + reply.statusText
    ensures reply.Threw? ==> e == CreateFailedPrefix + reply.message
  {
    var message := if reply.NotOk? then CreateFailedPrefix + reply.statusText else reply.message;
    CreateFailedPrefix + message
  }

  /** `createNote(name, description)`: a name that is empty after trimming
      only sets the validation error. Otherwise the error is cleared and the
      note posted; a successful post is followed by exactly a `fetchNotes`
      (with `listReply`), a failed one only sets the error. The new note is
      never inserted locally. */
  function CreateNoteStep(s: State, name: string, postReply: Reply<()>,
                          listReply: Reply<seq<Note>>): (r: State)
    ensures Trim(name) == [] ==> r == s.(error := EmptyName)
    ensures Trim(name) != [] && postReply.Ok? ==> r == FetchNotesStep(s.(error := ""), listReply)
    ensures Trim(name) != [] && !postReply.Ok? ==>
              r.notes == s.notes && r.selectedNote == s.selectedNote &&
              r.isLoading == s.isLoading &&
              r.error == CreateFailure(postReply)
  {
    if Trim(name) == [] then s.(error := EmptyName)
    else
      var cleared := s.(error := "");
      if postReply.Ok? then FetchNotesStep(cleared, listReply)
      else cleared.(error := CreateFailure(postReply))
  }

  /** The requests `createNote` issues: none for a blank name, otherwise the
      POST, followed by the list request when the POST succeeded. */
  function CreateNoteRequests(name: string, description: string, postReply: Reply<()>)
    : (calls: seq<Request>)
    ensures calls == [] <==> Trim(name) == []
    ensures calls != [] ==> calls[0] == Post(name, description)
    ensures List in calls <==> Trim(name) != [] && postReply.Ok?
    ensures |calls| <= 2
  {
    if Trim(name) == [] then []
    else if postReply.Ok? then [Post(name, description), List]
    else [Post(name, description)]
  }

  /** A name made only of whitespace (the empty name included) is rejected
      before any store request: only the validation error changes. */
  lemma BlankNameRejected(s: State, name: string, description: string,
                          postReply: Reply<()>, listReply: Reply<seq<Note>>)
    requires forall i :: 0 <= i < |name| ==> IsWhitespace(name[i])
    ensures CreateNoteStep(s, name, postReply, listReply) == s.(error := EmptyName)
    ensures CreateNoteRequests(name, description, postReply) == []
  {
    TrimSpec(name);
  }

  /** Two successful deletions give the same state in either order. */
  lemma DeleteNotesCommute(s: State, a: int, b: int)
    ensures DeleteNoteStep(DeleteNoteStep(s, a, Ok(())), b, Ok(()))
         == DeleteNoteStep(DeleteNoteStep(s, b, Ok(())), a, Ok(()))
  {
    WithoutIdCommutes(s.notes, a, b);
  }

  /** A successful deletion keeps exactly the notes at the positions with
      another id, in their original order. */
  lemma DeleteKeepsOrder(s: State, id: int)
    ensures ReadAt(DeleteNoteStep(s, id, Ok(())).notes, s.notes, Kept(s.notes, id, 0), 0)
    ensures Increasing(Kept(s.notes, id, 0))
  {
    WithoutIdKeepsOrder(s.notes, id, 0);
    KeptIncreasing(s.notes, id, 0);
  }

  // ---------------------------------------------------------------------
  // The component
  // ---------------------------------------------------------------------

  class App {
    var notes: seq<Note>
    var selectedNote: Option<Note>
    var isLoading: bool
    var error: string

    function Snapshot(): (r: State)
      reads this
    {
      State(notes, selectedNote, isLoading, error)
    }

    /** The component's first render: no notes, no selection, loading, no
        error. */
    constructor ()
      ensures Snapshot() == Initial
    {
      notes := [];
      selectedNote := None;
      isLoading := true;
      error := "";
    }

    method FetchNotes(reply: Reply<seq<Note>>) returns (calls: seq<Request>)
      modifies this
      ensures Snapshot() == FetchNotesStep(old(Snapshot()), reply)
      ensures calls == [List]
    {
      isLoading := true;
      calls := [List];
      match reply {
        case Ok(data) =>
          notes := data;
          if |data| > 0 {
            selectedNote := Some(data[0]);
          }
        case _ =>
          error := LoadNotesFailed;
      }
      isLoading := false;
    }

    method FetchNote(id: int, reply: Reply<Note>) returns (calls: seq<Request>)
      modifies this
      ensures Snapshot() == FetchNoteStep(old(Snapshot()), reply)
      ensures calls == [Get(id)]
    {
      calls := [Get(id)];
      match reply {
        case Ok(note) =>
          selectedNote := Some(note);
        case _ =>
          error := FetchNoteFailed;
      }
    }

    method DeleteNote(id: int, reply: Reply<()>) returns (calls: seq<Request>)
      modifies this
      ensures Snapshot() == DeleteNoteStep(old(Snapshot()), id, reply)
      ensures calls == [Delete(id)]
    {
      calls := [Delete(id)];
      match reply {
        case Ok(_) =>
          notes := WithoutId(notes, id);
          if selectedNote.Some? && selectedNote.value.id == id {
            selectedNote := None;
          }
        case _ =>
          error := DeleteNoteFailed;
      }
    }

    method CreateNote(name: string, description: string, postReply: Reply<()>,
                      listReply: Reply<seq<Note>>) returns (calls: seq<Request>)
      modifies this
      ensures Snapshot() == CreateNoteStep(old(Snapshot()), name, postReply, listReply)
      ensures calls == CreateNoteRequests(name, description, postReply)
    {
      ghost var before := Snapshot();
      if Trim(name) == [] {
        error := EmptyName;
        calls := [];
        assert Snapshot() == before.(error := EmptyName);
        return;
      }
      error := "";
      calls := [Post(name, description)];
      if postReply.Ok? {
        var listed := FetchNotes(listReply);
        calls := calls + listed;
        assert calls == [Post(name, description), List];
        assert Snapshot() == FetchNotesStep(before.(error := ""), listReply);
      } else {
        // the message of the error thrown for a non-ok status, or of the
        // exception itself
        var message := if postReply.NotOk? then CreateFailedPrefix + postReply.statusText
                       else postReply.message;
        error := CreateFailedPrefix + message;
        assert error == CreateFailure(postReply);
      }
    }
  }
}
