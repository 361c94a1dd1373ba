/** The journal sidebar of `src/Components/Journal.jsx`: notes newest
    first, created and deleted locally, filtered by a search box, and the
    text of the latest five sent for a summary. */
module Journal {
  import opened Wrappers
  import opened Text
  import opened Records
  import opened Sorting

  /** `(a, b) => new Date(b.created_at) - new Date(a.created_at)` has the sign
      of `key(a) - key(b)` for this key. */
  function NewestKey(n: Note): int
  {
    -n.createdAt
  }

  /** The list `fetchNotes` stores. */
  function NewestFirst(ns: seq<Note>): seq<Note>
  {
    SortBy(ns, NewestKey)
  }

  /** The stored notes are the fetched ones, newest first, notes created at
      the same moment in the order they arrived. */
  lemma NewestFirstOrder(ns: seq<Note>)
    ensures multiset(NewestFirst(ns)) == multiset(ns)
    ensures forall i, j :: 0 <= i < j < |NewestFirst(ns)| ==> NewestFirst(ns)[i].createdAt >= NewestFirst(ns)[j].createdAt
    ensures forall k :: WithKey(NewestFirst(ns), NewestKey, k) == WithKey(ns, NewestKey, k)
  {
    SortByProperties(ns, NewestKey);
    var r := NewestFirst(ns);
    forall i, j | 0 <= i < j < |r| ensures r[i].createdAt >= r[j].createdAt {
      assert NewestKey(r[i]) <= NewestKey(r[j]);
    }
  }

  /** `createNote()`: blank editor text sends nothing; otherwise the saved
      note the server replies with goes on top and the editor is cleared.
      Returns the notes and the editor text. */
  function CreateNote(ns: seq<Note>, content: string, reply: Option<Note>): (seq<Note>, string)
  {
    if IsBlank(content) then (ns, content)
    else match reply
      case None => (ns, content)
      case Some(n) => ([n] + ns, "")
  }

  /** `deleteNote(id)`: after confirmation, the notes with that id are
      dropped from the local list. */
  function DeleteNote(ns: seq<Note>, id: nat, confirmed: bool): seq<Note>
  {
    if !confirmed then ns else Filter(ns, (n: Note) => n.id != id)
  }

  /** Blank text creates nothing; a saved note shows on top; deleting a
      newly created note (whose id no other note has) gives back the list
      as it was. */
  lemma CreateThenDelete(ns: seq<Note>, content: string, n: Note)
    requires forall i :: 0 <= i < |ns| ==> ns[i].id != n.id
    ensures IsBlank(content) ==> CreateNote(ns, content, Some(n)).0 == ns
    ensures !IsBlank(content) ==> CreateNote(ns, content, Some(n)) == ([n] + ns, "")
    ensures DeleteNote(CreateNote(ns, content, Some(n)).0, n.id, true) == ns
  {
    var p := (m: Note) => m.id != n.id;
    FilterAll(ns, p);
    if !IsBlank(content) {
      FilterAppend([n], ns, p);
      assert Filter([n], p) == [];
    }
  }

  /** A confirmed deletion removes every note with that id and keeps every
      other note as often as before. */
  lemma DeleteNoteSpec(ns: seq<Note>, id: nat)
    ensures DeleteNote(ns, id, false) == ns
    ensures forall n: Note :: n in DeleteNote(ns, id, true) ==> n.id != id
    ensures forall n: Note :: n.id != id ==> multiset(DeleteNote(ns, id, true))[n] == multiset(ns)[n]
  {
    FilterSpec(ns, (n: Note) => n.id != id);
  }

  /** `n.content.toLowerCase().includes(search.toLowerCase())`. */
  predicate MatchesSearch(n: Note, search: string)
  {
    ContainsIgnoringCase(n.content, search)
  }

  /** `filteredNotes`. */
  function Shown(ns: seq<Note>, search: string): seq<Note>
  {
    Filter(ns, (n: Note) => MatchesSearch(n, search))
  }

  /** A note is shown exactly when its content contains the search text up
      to case; an empty search shows every note. */
  lemma ShownSpec(ns: seq<Note>, search: string)
    ensures forall n :: n in Shown(ns, search) <==> n in ns && ContainsIgnoringCase(n.content, search)
    ensures search == [] ==> Shown(ns, search) == ns
  {
    FilterSpec(ns, (n: Note) => MatchesSearch(n, search));
    if search == [] {
      forall i | 0 <= i < |ns| ensures MatchesSearch(ns[i], search) {
        assert OccursAt(LowerStr(ns[i].content), LowerStr(search), 0);
      }
      FilterAll(ns, (n: Note) => MatchesSearch(n, search));
    }
  }

  function Contents(ns: seq<Note>): seq<string>
  {
    seq(|ns|, i requires 0 <= i < |ns| => ns[i].content)
  }

  /** `notes.slice(0, 5).map(n => n.content).join("\n---\n")`. */
  function SummaryInput(ns: seq<Note>): string
  {
    Join(Contents(ns[..if |ns| < 5 then |ns| else 5]), "\n---\n")
  }

  /** Only the first five notes reach the prompt; a single note is sent as
      it is; and a note placed in front of one to four others contributes
      its content, then the separator, then the rest. */
  lemma SummaryInputSpec(n: Note, ns: seq<Note>, more: seq<Note>)
    ensures |ns| >= 5 ==> SummaryInput(ns + more) == SummaryInput(ns)
    ensures |ns| == 1 ==> SummaryInput(ns) == ns[0].content
    ensures 1 <= |ns| < 5 ==> SummaryInput([n] + ns) == n.content + "\n---\n" + SummaryInput(ns)
  {
    if |ns| >= 5 {
      assert (ns + more)[..5] == ns[..5];
    }
    if 1 <= |ns| < 5 {
      var all := [n] + ns;
      assert all[..|all|] == all && ns[..|ns|] == ns;
      assert Contents(all)[1..] == Contents(ns);
    }
  }
}
