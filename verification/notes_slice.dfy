/**
 * The client's notes store: the list shown on the dashboard, the loading flag, the last
 * error and the note being edited, changed in place by the reducers and by the four
 * request thunks (fetch, create, update, delete) as they start, succeed or fail.
 */
module NotesSlice {
  import opened Base

  /** A note as the client receives it: ids and timestamps are strings. */
  datatype ClientNote = ClientNote(id: string, title: string, content: Option<string>, completed: Option<bool>,
                                   userId: string, createdAt: string, updatedAt: string)

  /** The four request thunks. */
  datatype NotesRequest = FetchNotes | CreateNote | UpdateNote | DeleteNote

  /** The message a thunk rejects with when the server sent none. */
  function FallbackMessage(request: NotesRequest): (m: string)
    ensures m != ""
    ensures request == FetchNotes <==> m == "Failed to fetch notes"
    ensures request == CreateNote <==> m == "Failed to create note"
    ensures request == UpdateNote <==> m == "Failed to update note"
    ensures request == DeleteNote <==> m == "Failed to delete note"
  {
    match request
    case FetchNotes => "Failed to fetch notes"
    case CreateNote => "Failed to create note"
    case UpdateNote => "Failed to update note"
    case DeleteNote => "Failed to delete note"
  }

  /** `findIndex(note => note.id === id)`: the first index holding that id, or -1. */
  function FindIndex(notes: seq<ClientNote>, id: string): (r: int)
    ensures -1 <= r < |notes|
    ensures r == -1 <==> forall k :: 0 <= k < |notes| ==> notes[k].id != id
    ensures r >= 0 ==> notes[r].id == id && forall k :: 0 <= k < r ==> notes[k].id != id
  {
    if notes == [] then -1
    else if notes[0].id == id then 0
    else
      var rest := FindIndex(notes[1..], id);
      if rest == -1 then -1 else rest + 1
  }

  /**
   * The list after a successful update, defined note by note: the first note with the
   * payload's id is replaced by the payload, everything else is kept.
   */
  function ReplaceFirst(notes: seq<ClientNote>, note: ClientNote): (r: seq<ClientNote>)
    ensures |r| == |notes|
    ensures forall k :: 0 <= k < |r| ==> r[k].id == notes[k].id
  {
    if notes == [] then []
    else if notes[0].id == note.id then [note] + notes[1..]
    else [notes[0]] + ReplaceFirst(notes[1..], note)
  }

  /**
   * The reducer's index assignment agrees with the note-by-note definition: nothing
   * changes when the id is absent; otherwise exactly the entry at the found index does.
   */
  lemma {:induction false} ReplaceFirstAtFoundIndex(notes: seq<ClientNote>, note: ClientNote)
    ensures FindIndex(notes, note.id) == -1 ==> ReplaceFirst(notes, note) == notes
    ensures FindIndex(notes, note.id) >= 0 ==>
      ReplaceFirst(notes, note) == notes[FindIndex(notes, note.id) := note]
  {
    if notes != [] && notes[0].id != note.id {
      var tail := notes[1..];
      ReplaceFirstAtFoundIndex(tail, note);
      assert ReplaceFirst(notes, note) == [notes[0]] + ReplaceFirst(tail, note);
      var rest := FindIndex(tail, note.id);
      if rest >= 0 {
        assert FindIndex(notes, note.id) == rest + 1;
        UpdateBehindHead(notes, rest, note);
      } else {
        assert [notes[0]] + tail == notes;
      }
    }
  }

  /** Updating the tail at `i` is updating the whole list at `i + 1`. */
  lemma UpdateBehindHead(notes: seq<ClientNote>, i: nat, note: ClientNote)
    requires i + 1 < |notes|
    ensures [notes[0]] + notes[1..][i := note] == notes[i + 1 := note]
  {
  }

  /** `filter(note => note.id !== id)`: every note with that id removed, the rest in order. */
  function WithoutId(notes: seq<ClientNote>, id: string): (r: seq<ClientNote>)
    ensures |r| <= |notes|
    ensures forall n :: n in r <==> n in notes && n.id != id
  {
    if notes == [] then []
    else if notes[0].id == id then WithoutId(notes[1..], id)
    else [notes[0]] + WithoutId(notes[1..], id)
  }

  /** Filtering works piecewise, so the kept notes stay in their relative order. */
  lemma {:induction false} WithoutIdAppend(a: seq<ClientNote>, b: seq<ClientNote>, id: string)
    ensures WithoutId(a + b, id) == WithoutId(a, id) + WithoutId(b, id)
  {
    if a == [] {
      assert a + b == b;
    } else {
      assert (a + b)[0] == a[0];
      assert (a + b)[1..] == a[1..] + b;
      WithoutIdAppend(a[1..], b, id);
    }
  }

  /** A delete of an id the list does not hold leaves the list as it is. */
  lemma {:induction false} WithoutAbsentId(notes: seq<ClientNote>, id: string)
    requires forall k :: 0 <= k < |notes| ==> notes[k].id != id
    ensures WithoutId(notes, id) == notes
  {
    if notes != [] {
      WithoutAbsentId(notes[1..], id);
      assert [notes[0]] + notes[1..] == notes;
    }
  }

  /** `NotesState`, updated in place by the reducers. */
  class NotesStore {
    var notes: seq<ClientNote>
    var isLoading: bool
    var error: Option<string>
    var currentNote: Option<ClientNote>

    /** The initial state: no notes, not loading, no error, no note selected. */
    constructor ()
      ensures notes == [] && !isLoading && error == None && currentNote == None
    {
      notes, isLoading, error, currentNote := [], false, None, None;
    }

    /** `clearError`. */
    method ClearError()
      modifies this
      ensures error == None
      ensures notes == old(notes) && isLoading == old(isLoading) && currentNote == old(currentNote)
    {
      error := None;
    }

    /** `setCurrentNote`: select a note, or none. */
    method SetCurrentNote(note: Option<ClientNote>)
      modifies this
      ensures currentNote == note
      ensures notes == old(notes) && isLoading == old(isLoading) && error == old(error)
    {
      currentNote := note;
    }

    /** `clearNotes`: empty the list and forget the selection and the error, but not the loading flag. */
    method ClearNotes()
      modifies this
      ensures notes == [] && currentNote == None && error == None
      ensures isLoading == old(isLoading)
    {
      notes := [];
      currentNote := None;
      error := None;
    }

    /** The `pending` case of each of the four requests. */
    method Pending(request: NotesRequest)
      modifies this
      ensures isLoading && error == None
      ensures notes == old(notes) && currentNote == old(currentNote)
    {
      isLoading := true;
      error := None;
    }

    /**
     * The `rejected` case of each of the four requests, with the thunk's payload: the
     * server's message when it sent a non-empty one, else the request's fallback.
     */
    method Rejected(request: NotesRequest, serverMessage: Option<string>)
      modifies this
      ensures !isLoading
      ensures error == Some(OrDefault(serverMessage, FallbackMessage(request)))
      ensures error.value != ""
      ensures notes == old(notes) && currentNote == old(currentNote)
    {
      isLoading := false;
      error := Some(OrDefault(serverMessage, FallbackMessage(request)));
    }

    /** `fetchNotes.fulfilled`: the fetched list replaces the old one. */
    method FetchFulfilled(payload: seq<ClientNote>)
      modifies this
      ensures notes == payload && !isLoading && error == None
      ensures currentNote == old(currentNote)
    {
      isLoading := false;
      notes := payload;
      error := None;
    }

    /** `createNote.fulfilled`: the new note goes first, the old notes follow in order. */
    method CreateFulfilled(payload: ClientNote)
      modifies this
      ensures |notes| == |old(notes)| + 1
      ensures notes[0] == payload && notes[1..] == old(notes)
      ensures !isLoading && error == None && currentNote == old(currentNote)
    {
      isLoading := false;
      notes := [payload] + notes;
      error := None;
    }

    /**
     * `updateNote.fulfilled`: the first note with the payload's id becomes the payload
     * (nothing changes when there is none), and so does the selected note when its id
     * matches.
     */
    method UpdateFulfilled(payload: ClientNote)
      modifies this
      ensures notes == ReplaceFirst(old(notes), payload)
      ensures old(currentNote).Some? && old(currentNote).value.id == payload.id ==> currentNote == Some(payload)
      ensures !(old(currentNote).Some? && old(currentNote).value.id == payload.id) ==> currentNote == old(currentNote)
      ensures !isLoading && error == None
    {
      isLoading := false;
      ReplaceFirstAtFoundIndex(notes, payload);
      var index := FindIndex(notes, payload.id);
      if index != -1 {
        notes := notes[index := payload];
      }
      if currentNote.Some? && currentNote.value.id == payload.id {
        currentNote := Some(payload);
      }
      error := None;
    }

    /**
     * `deleteNote.fulfilled`: every note with the deleted id leaves the list, and the
     * selection is dropped when it is that note.
     */
    method DeleteFulfilled(id: string)
      modifies this
      ensures notes == WithoutId(old(notes), id)
      ensures forall k :: 0 <= k < |notes| ==> notes[k].id != id
      ensures old(currentNote).Some? && old(currentNote).value.id == id ==> currentNote == None
      ensures !(old(currentNote).Some? && old(currentNote).value.id == id) ==> currentNote == old(currentNote)
      ensures !isLoading && error == None
    {
      isLoading := false;
      notes := WithoutId(notes, id);
      if currentNote.Some? && currentNote.value.id == id {
        currentNote := None;
      }
      error := None;
    }
  }

  /** Only the replaced position changes on an update, and it then holds the payload. */
  lemma ReplaceFirstChangesOnlyFirstMatch(notes: seq<ClientNote>, note: ClientNote)
    ensures var i := FindIndex(notes, note.id);
      && (i == -1 ==> ReplaceFirst(notes, note) == notes)
      && (i >= 0 ==> ReplaceFirst(notes, note)[i] == note)
      && (forall k :: 0 <= k < |notes| && k != i ==> ReplaceFirst(notes, note)[k] == notes[k])
  {
    ReplaceFirstAtFoundIndex(notes, note);
  }
}
