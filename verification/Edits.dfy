/**
 * Rewriting counts in a comment block: the block is joined into prose that remembers where each
 * character came from, and the edits found in the prose are made in the lines.
 */
module Edits {
  import opened Common

  // ----- joining -----

  datatype Entry = Entry(line: string, index: nat)
  datatype Spot = Spot(line: nat, col: nat)
  datatype Joined = Joined(text: string, at: seq<Option<Spot>>)

  /** How much of a line is comment mark: a `#`, and one space or tab after it. */
  function Pad(line: string): (pad: nat)
    ensures pad <= |line|
  {
    if line == "" || line[0] != '#' then 0
    else if |line| > 1 && (line[1] == ' ' || line[1] == '\t') then 2
    else 1
  }

  /** The longest of these marks that the line starts with. */
  lemma PadIsMark(line: string)
    ensures Pad(line) <= |line| && line[..Pad(line)] in ["", "#", "# ", "#\t"]
    ensures forall mark :: mark in ["", "#", "# ", "#\t"] && mark <= line ==> |mark| <= Pad(line)
  {
    if line != "" && line[0] == '#' {
      assert line[..1] == "#";
      if |line| > 1 && line[1] == ' ' {
        assert line[..2] == "# ";
      } else if |line| > 1 && line[1] == '\t' {
        assert line[..2] == "#\t";
      }
    }
  }

  function Spots(index: nat, pad: nat, n: nat): seq<Option<Spot>> {
    seq(n, i requires 0 <= i < n => Some(Spot(index, pad + i)))
  }

  function Appended(j: Joined, e: Entry): Joined {
    var pad := Pad(e.line);
    var body := e.line[pad..];
    if |j.text| > 0 then Joined(j.text + " " + body, j.at + [None] + Spots(e.index, pad, |body|))
    else Joined(j.text + body, j.at + Spots(e.index, pad, |body|))
  }

  function JoinedOn(j: Joined, entries: seq<Entry>): Joined
    decreases |entries|
  {
    if entries == [] then j else JoinedOn(Appended(j, entries[0]), entries[1..])
  }

  const NOTHING := Joined("", [])

  method Join(entries: seq<Entry>) returns (text: string, at: seq<Option<Spot>>)
    ensures Joined(text, at) == JoinedOn(NOTHING, entries)
  {
    text, at := "", [];
    for n := 0 to |entries|
      invariant JoinedOn(Joined(text, at), entries[n..]) == JoinedOn(NOTHING, entries)
    {
      ghost var before := Joined(text, at);
      var entry := entries[n];
      assert entries[n..][0] == entry && entries[n..][1..] == entries[n + 1..];
      var pad := Pad(entry.line);
      var body := entry.line[pad..];
      if |text| > 0 {
        text := text + " ";
        at := at + [None];
      }
      ghost var start := at;
      for i := 0 to |body|
        invariant at == start + Spots(entry.index, pad, i)
      {
        assert Spots(entry.index, pad, i + 1) == Spots(entry.index, pad, i) + [Some(Spot(entry.index, pad + i))];
        at := at + [Some(Spot(entry.index, pad + i))];
      }
      text := text + body;
      assert Joined(text, at) == Appended(before, entry);
    }
  }

  // ----- what the joined text remembers -----

  /** The entries are lines of the file, in order. */
  ghost predicate From(lines: seq<string>, entries: seq<Entry>) {
    && (forall i :: 0 <= i < |entries| ==> entries[i].index < |lines| && lines[entries[i].index] == entries[i].line)
    && forall i, k :: 0 <= i < k < |entries| ==> entries[i].index < entries[k].index
  }

  predicate Before(a: Spot, b: Spot) { a.line < b.line || (a.line == b.line && a.col < b.col) }

  /** A character that has a place is the character at that place; one that has none is a space. */
  ghost predicate Traced(j: Joined, lines: seq<string>, k: nat)
    requires |j.text| == |j.at| && k < |j.at|
  {
    match j.at[k]
    case None => j.text[k] == ' '
    case Some(spot) =>
      spot.line < |lines| && spot.col < |lines[spot.line]| && j.text[k] == lines[spot.line][spot.col]
  }

  /** Places come in order, and two in a row are next to each other in one line. */
  ghost predicate InOrder(j: Joined) {
    && (forall k, m :: 0 <= k < m < |j.at| && j.at[k].Some? && j.at[m].Some? ==> Before(j.at[k].value, j.at[m].value))
    && forall k :: 0 <= k < |j.at| - 1 && j.at[k].Some? && j.at[k + 1].Some? ==>
         j.at[k + 1] == Some(Spot(j.at[k].value.line, j.at[k].value.col + 1))
  }

  ghost predicate Faithful(j: Joined, lines: seq<string>) {
    |j.text| == |j.at| && InOrder(j) && forall k :: 0 <= k < |j.at| ==> Traced(j, lines, k)
  }

  /** Where the characters of one more entry stand. */
  lemma AppendLayout(j: Joined, e: Entry) returns (start: nat)
    requires |j.text| == |j.at|
    ensures var a := Appended(j, e);
            && |a.text| == |a.at| == start + |e.line| - Pad(e.line) && start == |j.at| + (if |j.at| > 0 then 1 else 0)
            && (forall k :: 0 <= k < |j.at| ==> a.at[k] == j.at[k] && a.text[k] == j.text[k])
            && (|j.at| > 0 ==> a.at[|j.at|] == None && a.text[|j.at|] == ' ')
            && forall k :: start <= k < |a.at| ==>
                 && a.at[k] == Some(Spot(e.index, Pad(e.line) + (k - start)))
                 && a.text[k] == e.line[Pad(e.line) + (k - start)]
  {
    start := |j.at| + (if |j.at| > 0 then 1 else 0);
  }

  lemma AppendInOrder(j: Joined, e: Entry)
    requires |j.text| == |j.at| && InOrder(j) && forall k :: 0 <= k < |j.at| && j.at[k].Some? ==>
               j.at[k].value.line < e.index
    ensures InOrder(Appended(j, e))
    ensures forall k :: 0 <= k < |Appended(j, e).at| && Appended(j, e).at[k].Some? ==>
              Appended(j, e).at[k].value.line <= e.index
  {
    var start := AppendLayout(j, e);
    var at := Appended(j, e).at;
    forall k, m | 0 <= k < m < |at| && at[k].Some? && at[m].Some? ensures Before(at[k].value, at[m].value) {
      if m < |j.at| {
        assert at[k] == j.at[k] && at[m] == j.at[m];
      }
    }
  }

  lemma AppendFaithful(j: Joined, lines: seq<string>, e: Entry)
    requires Faithful(j, lines) && e.index < |lines| && lines[e.index] == e.line
    requires forall k :: 0 <= k < |j.at| && j.at[k].Some? ==> j.at[k].value.line < e.index
    ensures Faithful(Appended(j, e), lines)
    ensures forall k :: 0 <= k < |Appended(j, e).at| && Appended(j, e).at[k].Some? ==>
              Appended(j, e).at[k].value.line <= e.index
  {
    var a := Appended(j, e);
    var start := AppendLayout(j, e);
    AppendInOrder(j, e);
    forall k | 0 <= k < |a.at| ensures Traced(a, lines, k) {
      if k < |j.at| {
        assert Traced(j, lines, k);
      }
    }
  }

  /** Every character that is not a separator points back to itself. */
  lemma {:induction false} JoinIsFaithful(j: Joined, lines: seq<string>, entries: seq<Entry>)
    requires Faithful(j, lines) && From(lines, entries)
    requires forall k :: 0 <= k < |j.at| && j.at[k].Some? && entries != [] ==> j.at[k].value.line < entries[0].index
    ensures Faithful(JoinedOn(j, entries), lines)
    decreases |entries|
  {
    if entries != [] {
      AppendFaithful(j, lines, entries[0]);
      JoinIsFaithful(Appended(j, entries[0]), lines, entries[1..]);
    }
  }

  lemma {:induction false} JoinKeeps(j: Joined, entries: seq<Entry>)
    ensures j.at <= JoinedOn(j, entries).at
    decreases |entries|
  {
    if entries != [] {
      JoinKeeps(Appended(j, entries[0]), entries[1..]);
    }
  }

  /** No character after a comment mark is left out. */
  lemma {:induction false} JoinIsComplete(j: Joined, entries: seq<Entry>, i: nat, col: nat)
    requires i < |entries| && Pad(entries[i].line) <= col < |entries[i].line|
    ensures Some(Spot(entries[i].index, col)) in JoinedOn(j, entries).at
    decreases |entries|
  {
    if i == 0 {
      var e, a := entries[0], Appended(j, entries[0]);
      var spots := Spots(e.index, Pad(e.line), |e.line| - Pad(e.line));
      assert spots[col - Pad(e.line)] == Some(Spot(e.index, col));
      assert a.at[|a.at| - |spots| + (col - Pad(e.line))] == Some(Spot(e.index, col));
      JoinKeeps(a, entries[1..]);
    } else {
      JoinIsComplete(Appended(j, entries[0]), entries[1..], i - 1, col);
    }
  }

  /** What a line says after its comment mark. */
  function Body(e: Entry): string { e.line[Pad(e.line)..] }

  /** The bodies with one space between each two. */
  ghost function Spaced(entries: seq<Entry>): string
    decreases |entries|
  {
    if entries == [] then ""
    else if |entries| == 1 then Body(entries[0])
    else Body(entries[0]) + " " + Spaced(entries[1..])
  }

  ghost function Following(entries: seq<Entry>): string
    decreases |entries|
  {
    if entries == [] then "" else " " + Body(entries[0]) + Following(entries[1..])
  }

  lemma {:induction false} SpacedFollows(entries: seq<Entry>)
    requires entries != []
    ensures Spaced(entries) == Body(entries[0]) + Following(entries[1..])
    decreases |entries|
  {
    if |entries| > 1 {
      SpacedFollows(entries[1..]);
    }
  }

  lemma {:induction false} JoinFollows(j: Joined, entries: seq<Entry>)
    requires j.text != ""
    ensures JoinedOn(j, entries).text == j.text + Following(entries)
    decreases |entries|
  {
    if entries != [] {
      JoinFollows(Appended(j, entries[0]), entries[1..]);
    }
  }

  /** The prose is the bodies from the first that is not empty, with one space between each two. */
  lemma {:induction false} JoinIsSpaced(entries: seq<Entry>, first: nat)
    requires first <= |entries| && forall i :: 0 <= i < first ==> Body(entries[i]) == ""
    requires first < |entries| ==> Body(entries[first]) != ""
    ensures JoinedOn(NOTHING, entries).text == Spaced(entries[first..])
    decreases |entries|
  {
    if entries != [] {
      var next := Appended(NOTHING, entries[0]);
      assert next.text == Body(entries[0]);
      if first == 0 {
        JoinFollows(next, entries[1..]);
        SpacedFollows(entries);
        assert entries[0..] == entries;
      } else {
        assert next == NOTHING;
        JoinIsSpaced(entries[1..], first - 1);
        assert entries[1..][first - 1..] == entries[first..];
      }
    }
  }

  // ----- editing -----

  datatype Edit = Edit(line: nat, col: nat, was: string, text: string)

  function End(e: Edit): nat { e.col + |e.was| }

  predicate Fits(lines: seq<string>, e: Edit) {
    e.line < |lines| && End(e) <= |lines[e.line]|
  }

  /** The edits start at different places and neither touches what the other replaces. */
  predicate Apart(e: Edit, f: Edit) {
    e.line != f.line || (e.col < f.col && End(e) <= f.col) || (f.col < e.col && End(f) <= e.col)
  }

  ghost predicate Disjoint(edits: seq<Edit>) {
    forall i, k :: 0 <= i < k < |edits| ==> Apart(edits[i], edits[k])
  }

  /** The order in which edits are made: the last in the file first. */
  predicate Later(e: Edit, f: Edit) { e.line > f.line || (e.line == f.line && e.col > f.col) }

  /** Insertion into a list that is already in order; equal places keep their order. */
  function Insert(e: Edit, sorted: seq<Edit>): seq<Edit>
    decreases |sorted|
  {
    if sorted == [] then [e]
    else if Later(sorted[0], e) then [sorted[0]] + Insert(e, sorted[1..])
    else [e] + sorted
  }

  function Sorted(edits: seq<Edit>): seq<Edit>
    decreases |edits|
  {
    if edits == [] then [] else Insert(edits[0], Sorted(edits[1..]))
  }

  function Replaced(line: string, e: Edit): string
    requires End(e) <= |line|
  {
    line[..e.col] + e.text + line[End(e)..]
  }

  /** What one edit puts at a place: its text where it starts. */
  ghost function TextAt(edits: set<Edit>, line: nat, pos: nat): string {
    if exists e :: e in edits && e.line == line && e.col == pos
    then var e :| e in edits && e.line == line && e.col == pos; e.text
    else ""
  }

  ghost predicate Covered(edits: set<Edit>, line: nat, pos: nat) {
    exists e :: e in edits && e.line == line && e.col <= pos < End(e)
  }

  /** All edits at once, character by character: new texts where edits start, old text that none covers. */
  ghost function AllAtOnce(text: string, edits: set<Edit>, line: nat, pos: nat): string
    requires pos <= |text|
    decreases |text| - pos, 1
  {
    TextAt(edits, line, pos) + OldFrom(text, edits, line, pos)
  }

  ghost function OldFrom(text: string, edits: set<Edit>, line: nat, pos: nat): string
    requires pos <= |text|
    decreases |text| - pos, 0
  {
    if pos == |text| then ""
    else if Covered(edits, line, pos) then AllAtOnce(text, edits, line, pos + 1)
    else [text[pos]] + AllAtOnce(text, edits, line, pos + 1)
  }

  // ----- the order -----

  ghost predicate Descending(edits: seq<Edit>) {
    forall i, k :: 0 <= i < k < |edits| ==> Later(edits[i], edits[k])
  }

  lemma {:induction false} InsertOrder(e: Edit, sorted: seq<Edit>)
    requires Descending(sorted) && forall f :: f in sorted ==> Apart(e, f)
    ensures Descending(Insert(e, sorted)) && Elems(Insert(e, sorted)) == Elems(sorted) + {e}
    ensures |Insert(e, sorted)| == |sorted| + 1
    decreases |sorted|
  {
    if sorted != [] {
      if Later(sorted[0], e) {
        InsertOrder(e, sorted[1..]);
        var rest := Insert(e, sorted[1..]);
        assert sorted == [sorted[0]] + sorted[1..];
        forall k | 0 <= k < |rest| ensures Later(sorted[0], rest[k]) {
          assert rest[k] in Elems(rest);
        }
      } else {
        assert sorted[0] in sorted;
      }
    }
  }

  /** Disjoint edits have one order, and none is lost in putting them in it. */
  lemma {:induction false} SortedOrder(edits: seq<Edit>)
    requires Disjoint(edits)
    ensures Descending(Sorted(edits)) && Elems(Sorted(edits)) == Elems(edits)
    decreases |edits|
  {
    if edits != [] {
      var rest := edits[1..];
      SortedOrder(rest);
      MembersAreElems(rest);
      MembersAreElems(Sorted(rest));
      forall f | f in Sorted(rest) ensures Apart(edits[0], f) {
        assert f in rest;
      }
      InsertOrder(edits[0], Sorted(rest));
      assert edits == [edits[0]] + rest;
    }
  }

  // ----- descending edits are all edits at once -----

  /** At most one edit starts at a place. */
  ghost predicate OneStart(edits: set<Edit>) {
    forall e, f :: e in edits && f in edits && e.line == f.line && e.col == f.col ==> e == f
  }

  ghost predicate AllFrom(edits: set<Edit>, line: nat, end: nat) {
    forall e :: e in edits && e.line == line ==> end <= e.col
  }

  lemma NothingHere(text: string, edits: set<Edit>, line: nat, pos: nat, end: nat)
    requires pos < end <= |text| && AllFrom(edits, line, end)
    ensures AllAtOnce(text, edits, line, pos) == [text[pos]] + AllAtOnce(text, edits, line, pos + 1)
  {
    assert TextAt(edits, line, pos) == "" && !Covered(edits, line, pos);
    NothingAdded(OldFrom(text, edits, line, pos));
  }

  lemma NothingAdded(s: string)
    ensures "" + s == s
  {
  }

  lemma MoreBefore(text: string, start: nat, end: nat, next: string, rest: string)
    requires start < end <= |text| && next == text[start + 1..end] + rest
    ensures [text[start]] + next == text[start..end] + rest
  {
  }

  lemma {:induction false} NothingBetween(text: string, edits: set<Edit>, line: nat, start: nat, end: nat)
    requires start <= end <= |text| && AllFrom(edits, line, end)
    ensures AllAtOnce(text, edits, line, start) == text[start..end] + AllAtOnce(text, edits, line, end)
    decreases end - start
  {
    if start == end {
      assert text[start..end] == [];
    } else {
      NothingBetween(text, edits, line, start + 1, end);
      NothingHere(text, edits, line, start, end);
      MoreBefore(text, start, end, AllAtOnce(text, edits, line, start + 1), AllAtOnce(text, edits, line, end));
    }
  }

  /** An edit plays no part on other lines, nor past its end. */
  lemma {:induction false} NoPart(text: string, edits: set<Edit>, e: Edit, line: nat, pos: nat)
    requires pos <= |text| && OneStart(edits + {e}) && (e.line != line || (e.col < pos && End(e) <= pos))
    ensures AllAtOnce(text, edits + {e}, line, pos) == AllAtOnce(text, edits, line, pos)
    decreases |text| - pos
  {
    StartUnchanged(edits, e, line, pos);
    if pos < |text| {
      NoPart(text, edits, e, line, pos + 1);
      assert Covered(edits + {e}, line, pos) == Covered(edits, line, pos);
    }
  }

  lemma StartUnchanged(edits: set<Edit>, e: Edit, line: nat, pos: nat)
    requires OneStart(edits + {e}) && !(e.line == line && e.col == pos)
    ensures TextAt(edits + {e}, line, pos) == TextAt(edits, line, pos)
  {
    if f :| f in edits && f.line == line && f.col == pos {
      assert f in edits + {e};
    }
  }

  /** What an edit replaces is left out, and nothing else starts in it. */
  lemma {:induction false} LeftOut(text: string, edits: set<Edit>, e: Edit, pos: nat)
    requires End(e) <= |text| && e.col < pos <= End(e) && OneStart(edits + {e}) && AllFrom(edits, e.line, End(e))
    ensures AllAtOnce(text, edits + {e}, e.line, pos) == AllAtOnce(text, edits, e.line, End(e))
    decreases End(e) - pos
  {
    if pos == End(e) {
      NoPart(text, edits, e, e.line, pos);
    } else {
      LeftOut(text, edits, e, pos + 1);
      assert TextAt(edits + {e}, e.line, pos) == "" && Covered(edits + {e}, e.line, pos);
    }
  }

  lemma ItsText(edits: set<Edit>, e: Edit)
    requires OneStart(edits + {e}) && e !in edits
    ensures TextAt(edits + {e}, e.line, e.col) == e.text && TextAt(edits, e.line, e.col) == ""
  {
    assert e in edits + {e};
    forall f | f in edits ensures f.line != e.line || f.col != e.col {
      assert f in edits + {e};
    }
  }

  lemma NothingLeft(text: string, edits: set<Edit>, line: nat, pos: nat)
    requires pos == |text|
    ensures OldFrom(text, edits, line, pos) == ""
  {
  }

  /** Two sets of edits that agree at a place and after it agree from it on. */
  lemma SameOld(text: string, a: set<Edit>, b: set<Edit>, line: nat, pos: nat)
    requires pos < |text| && Covered(a, line, pos) == Covered(b, line, pos)
    requires AllAtOnce(text, a, line, pos + 1) == AllAtOnce(text, b, line, pos + 1)
    ensures OldFrom(text, a, line, pos) == OldFrom(text, b, line, pos)
  {
  }

  lemma CoveredOld(text: string, edits: set<Edit>, line: nat, pos: nat)
    requires pos < |text| && Covered(edits, line, pos)
    ensures OldFrom(text, edits, line, pos) == AllAtOnce(text, edits, line, pos + 1)
  {
  }

  lemma ReplacesFromItsStart(text: string, edits: set<Edit>, e: Edit)
    requires End(e) <= |text| && OneStart(edits + {e}) && AllFrom(edits, e.line, End(e)) && e.was != ""
    ensures OldFrom(text, edits + {e}, e.line, e.col) == AllAtOnce(text, edits, e.line, End(e))
  {
    assert e in edits + {e};
    assert e.col <= e.col < End(e) && Covered(edits + {e}, e.line, e.col);
    CoveredOld(text, edits + {e}, e.line, e.col);
    LeftOut(text, edits, e, e.col + 1);
  }

  lemma InsertsAtItsStart(text: string, edits: set<Edit>, e: Edit, pos: nat)
    requires pos <= |text| && OneStart(edits + {e}) && |e.was| == 0 && pos == e.col
    ensures OldFrom(text, edits + {e}, e.line, pos) == OldFrom(text, edits, e.line, pos)
  {
    if pos == |text| {
      NothingLeft(text, edits, e.line, pos);
      NothingLeft(text, edits + {e}, e.line, pos);
    } else {
      NoPart(text, edits, e, e.line, pos + 1);
      assert Covered(edits + {e}, e.line, pos) == Covered(edits, e.line, pos);
      SameOld(text, edits + {e}, edits, e.line, pos);
    }
  }

  /** From its own start on, one more edit is its text and then what the others make of the rest. */
  lemma FromItsStart(text: string, edits: set<Edit>, e: Edit)
    requires End(e) <= |text| && OneStart(edits + {e}) && e !in edits && AllFrom(edits, e.line, End(e))
    ensures AllAtOnce(text, edits + {e}, e.line, e.col) == e.text + AllAtOnce(text, edits, e.line, End(e))
  {
    ItsText(edits, e);
    if e.was == "" {
      InsertsAtItsStart(text, edits, e, e.col);
      NothingAdded(OldFrom(text, edits, e.line, e.col));
    } else {
      ReplacesFromItsStart(text, edits, e);
    }
  }

  lemma OneMore(text: string, edits: set<Edit>, e: Edit, now: string)
    requires End(e) <= |text| && OneStart(edits + {e}) && e !in edits && AllFrom(edits, e.line, End(e))
    requires now == AllAtOnce(text, edits, e.line, 0)
    ensures End(e) <= |now| && Replaced(now, e) == AllAtOnce(text, edits + {e}, e.line, 0)
  {
    var rest := AllAtOnce(text, edits, e.line, End(e));
    NothingBetween(text, edits, e.line, 0, End(e));
    assert now[..e.col] == text[..e.col] && now[End(e)..] == rest;
    NothingBetween(text, edits + {e}, e.line, 0, e.col);
    FromItsStart(text, edits, e);
    ConcatAssociative(text[0..e.col], e.text, rest);
  }

  /** Without edits, a line is what it was. */
  lemma NoEdits(text: string, line: nat)
    ensures AllAtOnce(text, {}, line, 0) == text
  {
    NothingBetween(text, {}, line, 0, |text|);
  }

  ghost predicate Made(lines: seq<string>, now: seq<string>, edits: set<Edit>) {
    |now| == |lines| && forall l :: 0 <= l < |lines| ==> now[l] == AllAtOnce(lines[l], edits, l, 0)
  }

  lemma MadeFurther(lines: seq<string>, now: seq<string>, edits: set<Edit>, e: Edit)
    requires Made(lines, now, edits) && Fits(lines, e) && OneStart(edits + {e}) && e !in edits &&
             AllFrom(edits, e.line, End(e))
    ensures Fits(now, e) && Made(lines, now[e.line := Replaced(now[e.line], e)], edits + {e})
  {
    OneMore(lines[e.line], edits, e, now[e.line]);
    forall l | 0 <= l < |lines| && l != e.line ensures now[l] == AllAtOnce(lines[l], edits + {e}, l, 0) {
      NoPart(lines[l], edits, e, l, 0);
    }
  }

  /** The next edit of the descending order is before all that were made. */
  lemma NextIsBefore(edits: seq<Edit>, sorted: seq<Edit>, n: nat)
    requires Disjoint(edits) && Descending(sorted) && Elems(sorted) == Elems(edits) && n < |sorted|
    ensures var made := Elems(sorted[..n]);
            && OneStart(made + {sorted[n]}) && sorted[n] !in made && AllFrom(made, sorted[n].line, End(sorted[n]))
            && Elems(sorted[..n + 1]) == made + {sorted[n]} && sorted[n] in edits
  {
    var e := sorted[n];
    MembersAreElems(sorted);
    MembersAreElems(edits);
    assert sorted[..n + 1] == sorted[..n] + [e];
    ElemsAppend(sorted[..n], e);
    assert e in sorted;
    forall f | f in Elems(sorted[..n]) ensures Later(f, e) && f in edits && (f.line == e.line ==> End(e) <= f.col) {
      var i :| 0 <= i < n && sorted[i] == f;
      assert f in sorted;
      if f.line == e.line {
        Place(edits, e, f);
      }
    }
    forall f, g | f in Elems(sorted[..n + 1]) && g in Elems(sorted[..n + 1]) && f.line == g.line && f.col == g.col
      ensures f == g
    {
      var i :| 0 <= i < n + 1 && sorted[i] == f;
      var k :| 0 <= k < n + 1 && sorted[k] == g;
    }
  }

  lemma Place(edits: seq<Edit>, e: Edit, f: Edit)
    requires Disjoint(edits) && e in edits && f in edits && Later(f, e) && f.line == e.line
    ensures End(e) <= f.col
  {
    var i :| 0 <= i < |edits| && edits[i] == e;
    var k :| 0 <= k < |edits| && edits[k] == f;
    assert Apart(edits[if i < k then i else k], edits[if i < k then k else i]);
  }

  /** Made one after another, last first, the edits come to all of them at once. */
  method MakeEdits(lines: array<string>, edits: seq<Edit>)
    requires Disjoint(edits) && forall e :: e in edits ==> Fits(lines[..], e)
    modifies lines
    ensures Made(old(lines[..]), lines[..], Elems(edits))
  {
    var sorted := Sorted(edits);
    SortedOrder(edits);
    ghost var before := lines[..];
    forall l | 0 <= l < |before| ensures before[l] == AllAtOnce(before[l], {}, l, 0) {
      NoEdits(before[l], l);
    }
    assert Elems(sorted[..0]) == {};
    for n := 0 to |sorted|
      invariant Made(before, lines[..], Elems(sorted[..n]))
    {
      var e := sorted[n];
      NextIsBefore(edits, sorted, n);
      MadeFurther(before, lines[..], Elems(sorted[..n]), e);
      ghost var now := lines[..];
      lines[e.line] := Replaced(lines[e.line], e);
      assert lines[..] == now[e.line := Replaced(now[e.line], e)];
    }
    assert sorted[..|sorted|] == sorted;
  }

  // ----- edits found in the joined text -----

  /** A match in the joined text, and what is to stand in its place. */
  datatype Match = Match(start: nat, length: nat, text: string)

  /** A match of words: it has no space in it. */
  ghost predicate Word(j: Joined, m: Match) {
    && |j.text| == |j.at| && m.length > 0 && m.start + m.length <= |j.text|
    && forall k :: m.start <= k < m.start + m.length ==> j.text[k] != ' '
  }

  /** A word of the prose is in one line of the file, in one piece. */
  lemma {:induction false} WordIsWhole(j: Joined, lines: seq<string>, m: Match, i: nat)
    requires Faithful(j, lines) && Word(j, m) && i < m.length
    ensures j.at[m.start].Some?
    ensures j.at[m.start + i] == Some(Spot(j.at[m.start].value.line, j.at[m.start].value.col + i))
  {
    assert Traced(j, lines, m.start + i);
    if i > 0 {
      WordIsWhole(j, lines, m, i - 1);
      var k := m.start + (i - 1);
      assert j.at[k].Some? && j.at[k + 1].Some?;
    }
  }

  /** The edit that is made for a match. */
  function EditFor(j: Joined, m: Match): Edit
    requires |j.text| == |j.at| && m.start + m.length <= |j.text| && m.length > 0 && j.at[m.start].Some?
  {
    var spot := j.at[m.start].value;
    Edit(spot.line, spot.col, j.text[m.start..m.start + m.length], m.text)
  }

  ghost predicate LandsAt(lines: seq<string>, e: Edit, i: nat) {
    e.line < |lines| && e.col + i < |lines[e.line]| && i < |e.was| && lines[e.line][e.col + i] == e.was[i]
  }

  /** It replaces in the line what was matched in the prose. */
  lemma EditLands(j: Joined, lines: seq<string>, m: Match)
    requires Faithful(j, lines) && Word(j, m)
    ensures j.at[m.start].Some?
    ensures var e := EditFor(j, m); Fits(lines, e) && lines[e.line][e.col..End(e)] == e.was
  {
    WordIsWhole(j, lines, m, 0);
    var e := EditFor(j, m);
    forall i: nat | i < m.length ensures LandsAt(lines, e, i) {
      WordIsWhole(j, lines, m, i);
      assert Traced(j, lines, m.start + i);
    }
    assert LandsAt(lines, e, m.length - 1);
    var there := lines[e.line][e.col..End(e)];
    forall i: nat | i < m.length ensures there[i] == e.was[i] {
      assert LandsAt(lines, e, i);
    }
  }

  ghost predicate Separate(matches: seq<Match>) {
    forall i, k :: 0 <= i < k < |matches| ==>
      || matches[i].start + matches[i].length <= matches[k].start
      || matches[k].start + matches[k].length <= matches[i].start
  }

  lemma EditsApart(j: Joined, lines: seq<string>, m: Match, n: Match)
    requires Faithful(j, lines) && Word(j, m) && Word(j, n) && m.start + m.length <= n.start
    ensures j.at[m.start].Some? && j.at[n.start].Some? && Apart(EditFor(j, m), EditFor(j, n))
  {
    WordIsWhole(j, lines, m, 0);
    WordIsWhole(j, lines, n, 0);
    WordIsWhole(j, lines, m, m.length - 1);
    assert Before(j.at[m.start + (m.length - 1)].value, j.at[n.start].value);
  }

  /** A comment block: the lines from `start` up to `end` that it is made of, and what is to be rewritten in it. */
  datatype Block = Block(start: nat, end: nat, entries: seq<Entry>, matches: seq<Match>)

  /** The block's own text, its words found apart from one another, and the edits made for them. */
  ghost predicate Found(lines: seq<string>, block: Block, edits: seq<Edit>) {
    var j := JoinedOn(NOTHING, block.entries);
    && From(lines, block.entries) && block.start <= block.end
    && (forall e :: e in block.entries ==> block.start <= e.index < block.end)
    && Separate(block.matches) && |edits| == |block.matches|
    && forall i :: 0 <= i < |edits| ==>
         && Word(j, block.matches[i])
         && (j.at[block.matches[i].start].Some? ==> edits[i] == EditFor(j, block.matches[i]))
  }

  ghost predicate Rows(j: Joined, start: nat, end: nat) {
    forall k :: 0 <= k < |j.at| && j.at[k].Some? ==> start <= j.at[k].value.line < end
  }

  lemma {:induction false} JoinStaysInside(j: Joined, entries: seq<Entry>, start: nat, end: nat)
    requires Rows(j, start, end) && forall e :: e in entries ==> start <= e.index < end
    ensures Rows(JoinedOn(j, entries), start, end)
    decreases |entries|
  {
    if entries != [] {
      assert entries[0] in entries;
      assert Rows(Appended(j, entries[0]), start, end);
      JoinStaysInside(Appended(j, entries[0]), entries[1..], start, end);
    }
  }

  /** The edit is inside its line, and what it replaces stands there. */
  ghost predicate Sound(lines: seq<string>, e: Edit) {
    Fits(lines, e) && lines[e.line][e.col..End(e)] == e.was
  }

  /** Matches that do not overlap in the prose of a block make edits that may all be made at once. */
  lemma BlockMakesEdits(lines: seq<string>, block: Block, edits: seq<Edit>)
    requires Found(lines, block, edits)
    ensures Disjoint(edits) && forall e :: e in edits ==> Sound(lines, e) && block.start <= e.line < block.end
  {
    var j := JoinedOn(NOTHING, block.entries);
    JoinIsFaithful(NOTHING, lines, block.entries);
    JoinStaysInside(NOTHING, block.entries, block.start, block.end);
    forall i | 0 <= i < |edits| ensures Sound(lines, edits[i]) && block.start <= edits[i].line < block.end {
      EditLands(j, lines, block.matches[i]);
    }
    forall i, k | 0 <= i < k < |edits| ensures Apart(edits[i], edits[k]) {
      if block.matches[i].start + block.matches[i].length <= block.matches[k].start {
        EditsApart(j, lines, block.matches[i], block.matches[k]);
      } else {
        EditsApart(j, lines, block.matches[k], block.matches[i]);
      }
    }
  }

  function Gathered(edits: seq<seq<Edit>>): seq<Edit> {
    if edits == [] then [] else Gathered(edits[..|edits| - 1]) + edits[|edits| - 1]
  }

  lemma DisjointAppend(a: seq<Edit>, b: seq<Edit>, row: nat)
    requires Disjoint(a) && Disjoint(b) && (forall e :: e in a ==> e.line < row) && forall e :: e in b ==> row <= e.line
    ensures Disjoint(a + b)
  {
    var all := a + b;
    forall i, k | 0 <= i < k < |all| ensures Apart(all[i], all[k]) {
      assert i < |a| ==> all[i] in a;
      assert k >= |a| ==> all[k] in b;
    }
  }

  /** The edit stands where the match begins, and puts the match's text in place of what was matched. */
  ghost predicate Answers(block: Block, m: Match, e: Edit) {
    var j := JoinedOn(NOTHING, block.entries);
    && |j.text| == |j.at| && m.start + m.length <= |j.text| && m.length > 0
    && j.at[m.start] == Some(Spot(e.line, e.col))
    && e.was == j.text[m.start..m.start + m.length] && e.text == m.text
  }

  ghost predicate Met(block: Block, m: Match, edits: seq<Edit>) { exists e :: e in edits && Answers(block, m, e) }

  ghost predicate AllMet(block: Block, edits: seq<Edit>) {
    forall i :: 0 <= i < |block.matches| ==> Met(block, block.matches[i], edits)
  }

  ghost predicate Asked(block: Block, e: Edit) {
    exists i :: 0 <= i < |block.matches| && Answers(block, block.matches[i], e)
  }

  /** There is an edit for each match, and none but for a match. */
  ghost predicate Answered(blocks: seq<Block>, edits: seq<Edit>) {
    && (forall b :: 0 <= b < |blocks| ==> AllMet(blocks[b], edits))
    && forall e :: e in edits ==> exists b :: 0 <= b < |blocks| && Asked(blocks[b], e)
  }

  lemma BlockAnswers(lines: seq<string>, block: Block, edits: seq<Edit>)
    requires Found(lines, block, edits)
    ensures forall i :: 0 <= i < |edits| ==> Answers(block, block.matches[i], edits[i])
  {
    var j := JoinedOn(NOTHING, block.entries);
    JoinIsFaithful(NOTHING, lines, block.entries);
    forall i | 0 <= i < |edits| ensures Answers(block, block.matches[i], edits[i]) {
      EditLands(j, lines, block.matches[i]);
    }
  }

  lemma MoreMet(block: Block, edits: seq<Edit>, all: seq<Edit>)
    requires AllMet(block, edits) && forall e :: e in edits ==> e in all
    ensures AllMet(block, all)
  {
    forall i | 0 <= i < |block.matches| ensures Met(block, block.matches[i], all) {
      assert Met(block, block.matches[i], edits);
    }
  }

  lemma BlockAnswered(lines: seq<string>, block: Block, edits: seq<Edit>)
    requires Found(lines, block, edits)
    ensures AllMet(block, edits) && forall e :: e in edits ==> Asked(block, e)
  {
    BlockAnswers(lines, block, edits);
    forall i | 0 <= i < |block.matches| ensures Met(block, block.matches[i], edits) {
      assert edits[i] in edits;
    }
  }

  lemma OneMoreAnswered(blocks: seq<Block>, block: Block, before: seq<Edit>, edits: seq<Edit>)
    requires Answered(blocks, before) && AllMet(block, edits) && forall e :: e in edits ==> Asked(block, e)
    ensures Answered(blocks + [block], before + edits)
  {
    var all, gathered := blocks + [block], before + edits;
    forall b | 0 <= b < |all| ensures AllMet(all[b], gathered) {
      if b < |blocks| {
        MoreMet(blocks[b], before, gathered);
      } else {
        MoreMet(block, edits, gathered);
      }
    }
    forall e | e in gathered ensures exists b :: 0 <= b < |all| && Asked(all[b], e) {
      if e in before {
        var b :| 0 <= b < |blocks| && Asked(blocks[b], e);
        assert all[b] == blocks[b];
      } else {
        assert all[|blocks|] == block;
      }
    }
  }

  /** The edits of all blocks of a file, one for each match, may all be made at once. */
  lemma {:induction false} MatchesMakeEdits(lines: seq<string>, blocks: seq<Block>, edits: seq<seq<Edit>>, row: nat)
    requires |edits| == |blocks| && forall b :: 0 <= b < |blocks| ==>
               Found(lines, blocks[b], edits[b]) && blocks[b].end <= row
    requires forall b, c :: 0 <= b < c < |blocks| ==> blocks[b].end <= blocks[c].start
    ensures Disjoint(Gathered(edits))
    ensures forall e :: e in Gathered(edits) ==> Sound(lines, e) && e.line < row
    ensures Answered(blocks, Gathered(edits))
    decreases |blocks|
  {
    if blocks != [] {
      var n := |blocks| - 1;
      MatchesMakeEdits(lines, blocks[..n], edits[..n], blocks[n].start);
      BlockMakesEdits(lines, blocks[n], edits[n]);
      DisjointAppend(Gathered(edits[..n]), edits[n], blocks[n].start);
      BlockAnswered(lines, blocks[n], edits[n]);
      OneMoreAnswered(blocks[..n], blocks[n], Gathered(edits[..n]), edits[n]);
      assert blocks[..n] + [blocks[n]] == blocks;
    }
  }
}
