/** Runs of the synchroniser: any sequence of handler calls, each with the
    store's replies to its requests, and the invariants every run keeps. */
module Trace {
  import opened Notes
  import opened Sync

  /** One handler call together with the replies the store gave it. */
  datatype Op =
    | FetchNotesOp(listReply: Reply<seq<Note>>)
    | FetchNoteOp(id: int, noteReply: Reply<Note>)
    | DeleteNoteOp(id: int, deleteReply: Reply<()>)
    | CreateNoteOp(name: string, description: string,
                   postReply: Reply<()>, createListReply: Reply<seq<Note>>)

  function Apply(s: State, op: Op): (r: State)
  {
    match op
    case FetchNotesOp(reply) => FetchNotesStep(s, reply)
    case FetchNoteOp(_, reply) => FetchNoteStep(s, reply)
    case DeleteNoteOp(id, reply) => DeleteNoteStep(s, id, reply)
    case CreateNoteOp(name, _, postReply, listReply) => CreateNoteStep(s, name, postReply, listReply)
  }

  function Run(s: State, ops: seq<Op>): (r: State)
    decreases |ops|
  {
    if ops == [] then s else Run(Apply(s, ops[0]), ops[1..])
  }

  /** The notes a handler call received from the store: the list it loaded,
      if any, and the note it fetched, if any. A create with a blank name
      issues no request, so it receives nothing. */
  function Received(op: Op): (r: seq<Note>)
  {
    match op
    case FetchNotesOp(Ok(data)) => data
    case FetchNoteOp(_, Ok(note)) => [note]
    case CreateNoteOp(name, _, Ok(_), Ok(data)) => if Trim(name) == [] then [] else data
    case _ => []
  }

  function ReceivedAll(ops: seq<Op>): (r: seq<Note>)
    decreases |ops|
  {
    if ops == [] then [] else Received(ops[0]) + ReceivedAll(ops[1..])
  }

  /** Once the loading flag is down it stays down: only `fetchNotes` raises
      it, and it lowers it again before returning. In particular the flag
      the component starts with is down after its first load. */
  lemma {:induction false} LoadingSettles(s: State, ops: seq<Op>)
    requires !s.isLoading || (ops != [] && ops[0].FetchNotesOp?)
    ensures !Run(s, ops).isLoading
    decreases |ops|
  {
    if ops != [] {
      LoadingSettles(Apply(s, ops[0]), ops[1..]);
    }
  }

  /** The messages the handlers write into the error slot. */
  predicate KnownError(e: string)
  {
    e == "" || e == LoadNotesFailed || e == FetchNoteFailed ||
    e == DeleteNoteFailed || e == EmptyName || CreateFailedPrefix <= e
  }

  /** The error slot only ever holds one of the handlers' messages. */
  lemma {:induction false} ErrorStaysKnown(s: State, ops: seq<Op>)
    requires KnownError(s.error)
    ensures KnownError(Run(s, ops).error)
    decreases |ops|
  {
    if ops != [] {
      ErrorStaysKnown(Apply(s, ops[0]), ops[1..]);
    }
  }

  /** Every listed note and the selected note came from the store or were
      already there: no handler synthesises a note locally (in particular a
      created note appears only through the reload that follows it). */
  lemma {:induction false} NotesComeFromStore(s: State, ops: seq<Op>)
    ensures forall n :: n in Run(s, ops).notes ==> n in s.notes || n in ReceivedAll(ops)
    ensures Run(s, ops).selectedNote.Some? ==>
              s.selectedNote == Run(s, ops).selectedNote ||
              Run(s, ops).selectedNote.value in ReceivedAll(ops)
    decreases |ops|
  {
    if ops != [] {
      var t := Apply(s, ops[0]);
      NotesComeFromStore(t, ops[1..]);
      assert forall n :: n in t.notes ==> n in s.notes || n in Received(ops[0]);
      assert t.selectedNote.Some? ==>
               t.selectedNote == s.selectedNote || t.selectedNote.value in Received(ops[0]);
    }
  }

  /** On the component's first render the list is empty, so a run starting
      there only ever lists notes the store sent. */
  lemma NotesFromInitialComeFromStore(ops: seq<Op>)
    ensures forall n :: n in Run(Initial, ops).notes ==> n in ReceivedAll(ops)
    ensures Run(Initial, ops).selectedNote.Some? ==>
              Run(Initial, ops).selectedNote.value in ReceivedAll(ops)
  {
    NotesComeFromStore(Initial, ops);
  }
}
