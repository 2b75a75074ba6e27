/** The `Note` record of the notepad client and the two pure pieces of logic
    its handlers rely on: removing the notes with a given id from a list
    (the `notes.filter(note => note.id !== id)` of `deleteNote`) and the
    whitespace trimming used to reject an empty note name. */
module Notes {

  datatype Option<T> = None | Some(value: T)

  /** A note as the store returns it; the timestamps are absent on a note
      that has not been round-tripped through the store. */
  datatype Note = Note(
    id: int,
    name: string,
    description: string,
    createdAt: Option<string>,
    updatedAt: Option<string>)

  // ---------------------------------------------------------------------
  // Removing the notes with a given id
  // ---------------------------------------------------------------------

  /** The number of notes in `notes` whose id is `id`. */
  function CountId(notes: seq<Note>, id: int): (r: nat)
    ensures r <= |notes|
  {
    if notes == [] then 0
    else (if notes[0].id == id then 1 else 0) + CountId(notes[1..], id)
  }

  /** The notes of `notes` whose id differs from `id`, in their original
      order; every removed note counts towards `CountId`. */
  function WithoutId(notes: seq<Note>, id: int): (r: seq<Note>)
    ensures |r| == |notes| - CountId(notes, id)
  {
    if notes == [] then []
    else if notes[0].id != id then [notes[0]] + WithoutId(notes[1..], id)
    else WithoutId(notes[1..], id)
  }

  /** A note survives the filter exactly when it was in the list and has
      another id. */
  lemma {:induction false} WithoutIdMembers(notes: seq<Note>, id: int)
    ensures forall n :: n in WithoutId(notes, id) <==> n in notes && n.id != id
  {
    if notes != [] {
      WithoutIdMembers(notes[1..], id);
      assert notes == [notes[0]] + notes[1..];
    }
  }

  /** Filtering out an id that no note has leaves the list as it was. */
  lemma {:induction false} WithoutIdAbsent(notes: seq<Note>, id: int)
    requires forall i :: 0 <= i < |notes| ==> notes[i].id != id
    ensures WithoutId(notes, id) == notes
    ensures CountId(notes, id) == 0
  {
    if notes != [] {
      WithoutIdAbsent(notes[1..], id);
      assert notes == [notes[0]] + notes[1..];
    }
  }

  ghost predicate Increasing(ks: seq<nat>)
  {
    forall k, l :: 0 <= k < l < |ks| ==> ks[k] < ks[l]
  }

  /** The positions, in ascending order, of the notes of `notes` whose id
      differs from `id`, counting the first note as position `base`: an
      index-based reference for `WithoutId`. */
  function Kept(notes: seq<Note>, id: int, base: nat): (ks: seq<nat>)
    ensures forall k :: 0 <= k < |ks| ==> base <= ks[k] < base + |notes|
  {
    if notes == [] then []
    else (if notes[0].id != id then [base] else []) + Kept(notes[1..], id, base + 1)
  }

  /** `Kept` lists positions in strictly ascending order. */
  lemma {:induction false} KeptIncreasing(notes: seq<Note>, id: int, base: nat)
    ensures Increasing(Kept(notes, id, base))
  {
    if notes != [] {
      var rest := Kept(notes[1..], id, base + 1);
      var head: seq<nat> := if notes[0].id != id then [base] else [];
      var ks := head + rest;
      assert ks == Kept(notes, id, base);
      KeptIncreasing(notes[1..], id, base + 1);
      forall k, l | 0 <= k < l < |ks|
        ensures ks[k] < ks[l]
      {
        assert ks[l] == rest[l - |head|];
        if k >= |head| {
          assert ks[k] == rest[k - |head|];
        }
      }
    }
  }

  /** `Kept` lists exactly the positions whose note has another id. */
  lemma {:induction false} KeptMembers(notes: seq<Note>, id: int, base: nat)
    ensures forall i :: base <= i < base + |notes| ==>
              (i in Kept(notes, id, base) <==> notes[i - base].id != id)
  {
    if notes != [] {
      var rest := Kept(notes[1..], id, base + 1);
      var head: seq<nat> := if notes[0].id != id then [base] else [];
      var ks := head + rest;
      assert ks == Kept(notes, id, base);
      KeptMembers(notes[1..], id, base + 1);
      forall i | base <= i < base + |notes|
        ensures i in ks <==> notes[i - base].id != id
      {
        if i == base {
          assert i !in rest;
        } else {
          assert i !in head;
          assert notes[i - base] == notes[1..][i - (base + 1)];
        }
      }
    }
  }

  /** `r` is `xs` read at the positions `ks`, in that order, where the
      first element of `xs` is at position `base`. */
  ghost predicate ReadAt(r: seq<Note>, xs: seq<Note>, ks: seq<nat>, base: nat)
  {
    |r| == |ks| &&
    (forall k :: 0 <= k < |ks| ==> base <= ks[k] < base + |xs|) &&
    (forall k :: 0 <= k < |ks| ==> r[k] == xs[ks[k] - base])
  }

  /** `WithoutId` keeps exactly the notes at the positions `Kept` lists, in
      that order: nothing else is dropped and nothing is reordered. */
  lemma {:induction false} WithoutIdKeepsOrder(notes: seq<Note>, id: int, base: nat)
    ensures ReadAt(WithoutId(notes, id), notes, Kept(notes, id, base), base)
  {
    if notes != [] {
      var rest := notes[1..];
      WithoutIdKeepsOrder(rest, id, base + 1);
      var keep := notes[0].id != id;
      PrependIndexed(notes[0], rest, notes, WithoutId(rest, id), WithoutId(notes, id),
                     Kept(rest, id, base + 1), Kept(notes, id, base), base, keep);
    }
  }

  /** The inductive step of `WithoutIdKeepsOrder`: prepending `x` to the
      list read, and when `keep` holds also to the result with its position
      `base` to the positions, keeps the one a reading of the other. */
  lemma PrependIndexed(x: Note, rest: seq<Note>, xs: seq<Note>, r: seq<Note>, all: seq<Note>,
                       ks: seq<nat>, kept: seq<nat>, base: nat, keep: bool)
    requires |xs| == 1 + |rest| && xs[0] == x && xs[1..] == rest
    requires all == if keep then [x] + r else r
    requires kept == if keep then [base] + ks else ks
    requires ReadAt(r, rest, ks, base + 1)
    ensures ReadAt(all, xs, kept, base)
  {
    var d := if keep then 1 else 0;
    forall k | 0 <= k < |kept|
      ensures base <= kept[k] < base + |xs| && all[k] == xs[kept[k] - base]
    {
      if k >= d {
        assert all[k] == r[k - d] && kept[k] == ks[k - d];
        assert xs[kept[k] - base] == xs[1..][ks[k - d] - (base + 1)];
      }
    }
  }

  /** Removing two ids does not depend on the order of the removals. */
  lemma {:induction false} WithoutIdCommutes(notes: seq<Note>, a: int, b: int)
    ensures WithoutId(WithoutId(notes, a), b) == WithoutId(WithoutId(notes, b), a)
  {
    if notes != [] {
      WithoutIdCommutes(notes[1..], a, b);
    }
  }

  // ---------------------------------------------------------------------
  // Trimming (JavaScript's String.prototype.trim)
  // ---------------------------------------------------------------------

  /** The characters that JavaScript's `trim` removes: the WhiteSpace and
      LineTerminator code points of ECMA-262 (section 12.2 and 12.3), that
      is tab, vertical tab, form feed, space, no-break space, the byte order
      mark, the other Unicode space separators (category Zs), line feed,
      carriage return, line separator and paragraph separator. */
  predicate IsWhitespace(c: char)
  {
    c == '\t' || c == '\U{000B}' || c == '\U{000C}' || c == ' ' ||
    c == '\U{00A0}' || c == '\U{FEFF}' || c == '\U{1680}' ||
    ('\U{2000}' <= c <= '\U{200A}') || c == '\U{202F}' || c == '\U{205F}' ||
    c == '\U{3000}' ||
    c == '\n' || c == '\r' || c == '\U{2028}' || c == '\U{2029}'
  }

  /** `s` without its leading whitespace. */
  function TrimStart(s: string): (r: string)
    ensures |r| <= |s|
  {
    if s != [] && IsWhitespace(s[0]) then TrimStart(s[1..]) else s
  }

  /** `s` without its trailing whitespace. */
  function TrimEnd(s: string): (r: string)
    ensures |r| <= |s|
  {
    if s != [] && IsWhitespace(s[|s| - 1]) then TrimEnd(s[..|s| - 1]) else s
  }

  /** `s` without leading and trailing whitespace. */
  function Trim(s: string): (r: string)
  {
    TrimEnd(TrimStart(s))
  }

  /** `TrimStart` drops a whitespace prefix and stops at the first other
      character. */
  lemma {:induction false} TrimStartSpec(s: string)
    ensures TrimStart(s) == s[|s| - |TrimStart(s)|..]
    ensures forall i :: 0 <= i < |s| - |TrimStart(s)| ==> IsWhitespace(s[i])
    ensures TrimStart(s) != [] ==> !IsWhitespace(TrimStart(s)[0])
  {
    if s != [] && IsWhitespace(s[0]) {
      TrimStartSpec(s[1..]);
    }
  }

  /** `TrimEnd` drops a whitespace suffix and stops at the last other
      character. */
  lemma {:induction false} TrimEndSpec(s: string)
    ensures TrimEnd(s) == s[..|TrimEnd(s)|]
    ensures forall i :: |TrimEnd(s)| <= i < |s| ==> IsWhitespace(s[i])
    ensures TrimEnd(s) != [] ==> !IsWhitespace(TrimEnd(s)[|TrimEnd(s)| - 1])
  {
    if s != [] && IsWhitespace(s[|s| - 1]) {
      TrimEndSpec(s[..|s| - 1]);
    }
  }

  /** A trimmed string is a slice of the original with whitespace removed
      from both ends; it neither starts nor ends with whitespace, and it is
      empty exactly when every character of the original is whitespace. */
  lemma TrimSpec(s: string)
    ensures |Trim(s)| <= |s|
    ensures Trim(s) == s[|s| - |TrimStart(s)|..|s| - |TrimStart(s)| + |Trim(s)|]
    ensures Trim(s) != [] ==> !IsWhitespace(Trim(s)[0]) && !IsWhitespace(Trim(s)[|Trim(s)| - 1])
    ensures Trim(s) == [] <==> forall i :: 0 <= i < |s| ==> IsWhitespace(s[i])
  {
    var t := TrimStart(s);
    var r := TrimEnd(t);
    var k := |s| - |t|;
    TrimStartSpec(s);
    TrimEndSpec(t);
    assert t == s[k..];
    assert r == t[..|r|];
    assert r == s[k..k + |r|];
    if r == [] {
      TrimmedEmpty(s);
    } else {
      assert r[0] == t[0];
      assert s[k] == t[0];
      assert !IsWhitespace(s[k]);
    }
  }

  /** Trimming leaves nothing exactly when the whole string is whitespace. */
  lemma TrimmedEmpty(s: string)
    requires TrimEnd(TrimStart(s)) == []
    ensures forall i :: 0 <= i < |s| ==> IsWhitespace(s[i])
  {
    var t := TrimStart(s);
    TrimStartSpec(s);
    TrimEndSpec(t);
    // a non-empty t would start with a character TrimEnd cannot drop
    if t != [] {
      assert false;
    }
  }
}
