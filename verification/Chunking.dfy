/**
 Parent-child chunking (app/ingestion/chunking.py): paragraphs are packed greedily into parents, and each
 parent is cut into overlapping windows.
 */
module Chunking {
  import opened Wrappers

  // ---- Paragraphs -------------------------------------------------------------------------------------

  const SEPARATOR := "\n\n"

  /** The characters `str.strip` removes. */
  predicate IsSpace(c: char) {
    var n := c as int;
    9 <= n <= 13 || 28 <= n <= 32 || n == 0x85 || n == 0xA0 || n == 0x1680 || 0x2000 <= n <= 0x200A
    || n == 0x2028 || n == 0x2029 || n == 0x202F || n == 0x205F || n == 0x3000
  }

  function Strip(s: string): (r: string)
    ensures |r| <= |s|
    ensures r != "" ==> !IsSpace(r[0]) && !IsSpace(r[|r| - 1])
    decreases |s|
  {
    if s == "" then ""
    else if IsSpace(s[0]) then Strip(s[1..])
    else if IsSpace(s[|s| - 1]) then Strip(s[..|s| - 1])
    else s
  }

  /** Where the first separator begins, or the length of the text. */
  function FirstBreak(text: string): (k: nat)
    ensures k <= |text| && (k < |text| ==> k + 2 <= |text| && text[k] == text[k + 1] == '\n')
  {
    if |text| < 2 then |text|
    else if text[0] == '\n' && text[1] == '\n' then 0
    else 1 + FirstBreak(text[1..])
  }

  /** `text.split("\n\n")`. */
  function Split(text: string): (pieces: seq<string>)
    ensures pieces != []
    decreases |text|
  {
    var k := FirstBreak(text);
    if k == |text| then [text] else [text[..k]] + Split(text[k + 2..])
  }

  function Join(pieces: seq<string>): string {
    if pieces == [] then ""
    else if |pieces| == 1 then pieces[0]
    else Join(pieces[..|pieces| - 1]) + SEPARATOR + pieces[|pieces| - 1]
  }

  function Stripped(pieces: seq<string>): (ps: seq<string>)
    ensures forall i :: 0 <= i < |ps| ==> ps[i] != ""
  {
    if pieces == [] then []
    else (if Strip(pieces[0]) == "" then [] else [Strip(pieces[0])]) + Stripped(pieces[1..])
  }

  function Paragraphs(text: string): (ps: seq<string>)
    ensures forall i :: 0 <= i < |ps| ==> ps[i] != ""
  {
    Stripped(Split(text))
  }

  lemma {:induction false} JoinFront(first: string, rest: seq<string>)
    requires rest != []
    ensures Join([first] + rest) == first + SEPARATOR + Join(rest)
  {
    var all := [first] + rest;
    if |rest| > 1 {
      assert all[..|all| - 1] == [first] + rest[..|rest| - 1];
      JoinFront(first, rest[..|rest| - 1]);
    }
  }

  lemma BreakParts(text: string, k: nat)
    requires k + 2 <= |text| && text[k] == text[k + 1] == '\n'
    ensures text == text[..k] + SEPARATOR + text[k + 2..]
  {
  }

  /** Splitting loses nothing: joining the pieces gives the text back. */
  lemma {:induction false} SplitJoin(text: string)
    ensures Join(Split(text)) == text
    decreases |text|
  {
    var k := FirstBreak(text);
    if k < |text| {
      SplitJoin(text[k + 2..]);
      JoinFront(text[..k], Split(text[k + 2..]));
      BreakParts(text, k);
    }
  }

  ghost predicate SeparatorAt(text: string, i: nat) {
    i + 1 < |text| && text[i] == '\n' && text[i + 1] == '\n'
  }

  lemma {:induction false} NoBreakBefore(text: string, i: nat)
    requires i < FirstBreak(text)
    ensures !SeparatorAt(text, i)
  {
    if i > 0 {
      NoBreakBefore(text[1..], i - 1);
    }
  }

  /**
   Splitting cuts at every separator, as early as it can: no piece holds one, and none but the last ends in a
   newline.
   */
  lemma {:induction false} SplitPieces(text: string, n: nat)
    requires n < |Split(text)|
    ensures forall i: nat :: !SeparatorAt(Split(text)[n], i)
    ensures n < |Split(text)| - 1 ==> Split(text)[n] == "" || Split(text)[n][|Split(text)[n]| - 1] != '\n'
    decreases |text|
  {
    var k := FirstBreak(text);
    if n > 0 {
      SplitPieces(text[k + 2..], n - 1);
    } else {
      assert Split(text)[0] == text[..k];
      forall i: nat ensures !SeparatorAt(text[..k], i) {
        if SeparatorAt(text[..k], i) {
          assert text[i] == text[..k][i] && text[i + 1] == text[..k][i + 1];
          NoBreakBefore(text, i);
        }
      }
      if 0 < k < |text| {
        NoBreakBefore(text, k - 1);
      }
    }
  }

  // ---- Greedy packing ---------------------------------------------------------------------------------

  /** What becomes of consecutive paragraphs: several joined into one parent, or a long one cut into several. */
  datatype Group = Joined(paras: seq<string>) | Cut(pieces: seq<string>)

  function Concat(pieces: seq<string>): string {
    if pieces == [] then "" else pieces[0] + Concat(pieces[1..])
  }

  /** `para[i : i + limit] for i in range(0, len(para), limit)`. */
  function Slices(para: string, limit: nat): (pieces: seq<string>)
    requires limit >= 1
    ensures Concat(pieces) == para
    ensures forall i :: 0 <= i < |pieces| ==> 1 <= |pieces[i]| <= limit
    ensures forall i :: 0 <= i < |pieces| - 1 ==> |pieces[i]| == limit
    decreases |para|
  {
    if para == "" then []
    else if |para| <= limit then [para]
    else [para[..limit]] + Slices(para[limit..], limit)
  }

  function Flush(current: seq<string>): seq<Group> {
    if current == [] then [] else [Joined(current)]
  }

  predicate Fits(current: seq<string>, para: string, limit: nat) {
    current == [] || |Join(current)| + 2 + |para| <= limit
  }

  /** The groups made of the open parent `current` and the paragraphs still to come. */
  function Pack(paras: seq<string>, current: seq<string>, limit: nat): seq<Group>
    requires limit >= 1
  {
    if paras == [] then Flush(current)
    else
      var para := paras[0];
      if |para| > limit then Flush(current) + [Cut(Slices(para, limit))] + Pack(paras[1..], [], limit)
      else if Fits(current, para, limit) then Pack(paras[1..], current + [para], limit)
      else [Joined(current)] + Pack(paras[1..], [para], limit)
  }

  function TextsOf(g: Group): seq<string> {
    match g case Joined(ps) => [Join(ps)] case Cut(pieces) => pieces
  }

  function ParasOf(g: Group): seq<string> {
    match g case Joined(ps) => ps case Cut(pieces) => [Concat(pieces)]
  }

  /** The parents' texts. */
  function Texts(groups: seq<Group>): seq<string> {
    if groups == [] then [] else TextsOf(groups[0]) + Texts(groups[1..])
  }

  /** The paragraphs the groups hold, in order. */
  function Paras(groups: seq<Group>): seq<string> {
    if groups == [] then [] else ParasOf(groups[0]) + Paras(groups[1..])
  }

  lemma AppendTail<T>(a: seq<T>, b: seq<T>)
    requires a != []
    ensures a + b != [] && (a + b)[0] == a[0] && (a + b)[1..] == a[1..] + b
  {
  }

  lemma AppendEmpty<T>(b: seq<T>)
    ensures [] + b == b
  {
  }

  lemma Regroup<T>(a: seq<T>, b: seq<T>, c: seq<T>)
    ensures a + (b + c) == (a + b) + c
  {
  }

  lemma {:induction false} JoinAppend(current: seq<string>, para: string)
    ensures |Join(current + [para])| == (if current == [] then 0 else |Join(current)| + 2) + |para|
  {
    assert (current + [para])[..|current|] == current;
  }

  lemma {:induction false} TextsAppend(a: seq<Group>, b: seq<Group>)
    ensures Texts(a + b) == Texts(a) + Texts(b)
  {
    if a == [] {
      AppendEmpty(b);
      AppendEmpty(Texts(b));
    } else {
      AppendTail(a, b);
      TextsAppend(a[1..], b);
      Regroup(TextsOf(a[0]), Texts(a[1..]), Texts(b));
    }
  }

  lemma {:induction false} ParasAppend(a: seq<Group>, b: seq<Group>)
    ensures Paras(a + b) == Paras(a) + Paras(b)
  {
    if a == [] {
      AppendEmpty(b);
      AppendEmpty(Paras(b));
    } else {
      AppendTail(a, b);
      ParasAppend(a[1..], b);
      Regroup(ParasOf(a[0]), Paras(a[1..]), Paras(b));
    }
  }

  /** Closing the open parent, if there is one. */
  function Closed(parents: seq<string>, current: seq<string>): seq<string> {
    if current == [] then parents else parents + [Join(current)]
  }

  /** The parents and the open parent after one more paragraph. */
  function Placed(parents: seq<string>, current: seq<string>, para: string, limit: nat): (seq<string>, seq<string>)
    requires limit >= 1
  {
    if |para| > limit then (Closed(parents, current) + Slices(para, limit), [])
    else if Fits(current, para, limit) then (parents, current + [para])
    else (Closed(parents, current), [para])
  }

  lemma FlushThen(parents: seq<string>, current: seq<string>, rest: seq<Group>)
    ensures parents + Texts(Flush(current) + rest) == Closed(parents, current) + Texts(rest)
  {
    if current == [] {
      assert Flush(current) + rest == rest;
    } else {
      assert (Flush(current) + rest)[1..] == rest;
      assert parents + ([Join(current)] + Texts(rest)) == parents + [Join(current)] + Texts(rest);
    }
  }

  lemma CutThen(parents: seq<string>, current: seq<string>, pieces: seq<string>, rest: seq<Group>)
    ensures parents + Texts(Flush(current) + ([Cut(pieces)] + rest)) == Closed(parents, current) + pieces + Texts(rest)
  {
    FlushThen(parents, current, [Cut(pieces)] + rest);
    assert ([Cut(pieces)] + rest)[1..] == rest;
    var before, after := Closed(parents, current), Texts(rest);
    assert before + (pieces + after) == before + pieces + after;
  }

  lemma PlacedKeepsTexts(parents: seq<string>, paras: seq<string>, current: seq<string>, limit: nat)
    requires limit >= 1 && paras != []
    ensures var (parents', current') := Placed(parents, current, paras[0], limit);
            parents' + Texts(Pack(paras[1..], current', limit)) == parents + Texts(Pack(paras, current, limit))
  {
    var para := paras[0];
    if |para| > limit {
      var cut, rest := Cut(Slices(para, limit)), Pack(paras[1..], [], limit);
      assert Pack(paras, current, limit) == Flush(current) + ([cut] + rest);
      CutThen(parents, current, Slices(para, limit), rest);
    } else if !Fits(current, para, limit) {
      FlushThen(parents, current, Pack(paras[1..], [para], limit));
    }
  }

  /** `_split_into_parents`. A zero limit fails on any paragraph; a negative one silently drops them all. */
  method SplitIntoParents(text: string, parentChars: int) returns (r: Result<seq<string>, string>)
    ensures parentChars >= 1 ==> r == Ok(Texts(Pack(Paragraphs(text), [], parentChars)))
    ensures parentChars == 0 ==> r == if Paragraphs(text) == [] then Ok([]) else Err("range() arg 3 must not be zero")
    ensures parentChars < 0 ==> r == Ok([])
  {
    var paras := Paragraphs(text);
    if parentChars <= 0 {
      if paras != [] && parentChars == 0 {
        return Err("range() arg 3 must not be zero");
      }
      return Ok([]);
    }
    var parents := PackParagraphs(paras, parentChars);
    return Ok(parents);
  }

  /** The packing loop: `current` is the open parent and `currentLen` the length its text would have. */
  method PackParagraphs(paras: seq<string>, limit: nat) returns (parents: seq<string>)
    requires limit >= 1
    ensures parents == Texts(Pack(paras, [], limit))
  {
    parents := [];
    var current: seq<string>, currentLen := [], 0;
    for i := 0 to |paras|
      invariant currentLen == |Join(current)|
      invariant parents + Texts(Pack(paras[i..], current, limit)) == Texts(Pack(paras, [], limit))
    {
      var para := paras[i];
      assert paras[i..][0] == para && paras[i..][1..] == paras[i + 1..];
      PlacedKeepsTexts(parents, paras[i..], current, limit);
      JoinAppend(current, para);
      ghost var placed := Placed(parents, current, para, limit);
      if |para| > limit {
        if current != [] {
          parents := parents + [Join(current)];
          current, currentLen := [], 0;
        }
        parents := parents + Slices(para, limit);
      } else if current != [] && currentLen + |para| + 2 > limit {
        parents := parents + [Join(current)];
        current, currentLen := [para], |para|;
      } else {
        currentLen := currentLen + |para| + (if current != [] then 2 else 0);
        current := current + [para];
      }
      assert (parents, current) == placed;
    }
    if current != [] {
      parents := parents + [Join(current)];
    }
  }

  // ---- What the packing guarantees --------------------------------------------------------------------

  /** A packing of paragraphs the limit allows: joined parents are within it, and only oversized paragraphs are cut. */
  ghost predicate WithinLimit(g: Group, limit: nat)
    requires limit >= 1
  {
    match g
    case Joined(ps) => ps != [] && |Join(ps)| <= limit
    case Cut(pieces) => |Concat(pieces)| > limit && pieces == Slices(Concat(pieces), limit)
  }

  ghost predicate IsPacking(groups: seq<Group>, limit: nat)
    requires limit >= 1
  {
    forall i :: 0 <= i < |groups| ==> WithinLimit(groups[i], limit)
  }

  /** Every paragraph is in the packing exactly once, in order. */
  lemma {:induction false} PackIsLossless(paras: seq<string>, current: seq<string>, limit: nat)
    requires limit >= 1
    ensures Paras(Pack(paras, current, limit)) == current + paras
  {
    if paras != [] {
      var para, rest := paras[0], paras[1..];
      assert paras == [para] + rest;
      if |para| > limit {
        PackIsLossless(rest, [], limit);
        CutIsLossless(current, para, Pack(rest, [], limit), limit);
        assert Paras(Pack(rest, [], limit)) == rest;
      } else if Fits(current, para, limit) {
        PackIsLossless(rest, current + [para], limit);
      } else {
        PackIsLossless(rest, [para], limit);
        assert ([Joined(current)] + Pack(rest, [para], limit))[1..] == Pack(rest, [para], limit);
      }
    }
  }

  lemma CutIsLossless(current: seq<string>, para: string, tail: seq<Group>, limit: nat)
    requires limit >= 1
    ensures Paras(Flush(current) + [Cut(Slices(para, limit))] + tail) == current + ([para] + Paras(tail))
  {
    var cut := Cut(Slices(para, limit));
    assert Flush(current) + [cut] + tail == Flush(current) + ([cut] + tail);
    ParasAppend(Flush(current), [cut] + tail);
    ParasAppend([cut], tail);
    assert Paras([cut]) == [para] && Paras(Flush(current)) == current;
  }

  lemma {:induction false} PackIsWithinLimit(paras: seq<string>, current: seq<string>, limit: nat)
    requires limit >= 1 && |Join(current)| <= limit
    ensures IsPacking(Pack(paras, current, limit), limit)
  {
    if paras != [] {
      var para, rest := paras[0], paras[1..];
      if |para| > limit {
        PackIsWithinLimit(rest, [], limit);
        PackingAppend(Flush(current), [Cut(Slices(para, limit))], limit);
        PackingAppend(Flush(current) + [Cut(Slices(para, limit))], Pack(rest, [], limit), limit);
      } else if Fits(current, para, limit) {
        JoinAppend(current, para);
        PackIsWithinLimit(rest, current + [para], limit);
      } else {
        PackIsWithinLimit(rest, [para], limit);
        PackingAppend([Joined(current)], Pack(rest, [para], limit), limit);
      }
    }
  }

  lemma PackingAppend(a: seq<Group>, b: seq<Group>, limit: nat)
    requires limit >= 1 && IsPacking(a, limit) && IsPacking(b, limit)
    ensures IsPacking(a + b, limit)
  {
  }

  lemma {:induction false} TextsAreBounded(groups: seq<Group>, limit: nat)
    requires limit >= 1 && IsPacking(groups, limit)
    requires forall i :: 0 <= i < |Paras(groups)| ==> Paras(groups)[i] != ""
    ensures forall i :: 0 <= i < |Texts(groups)| ==> 1 <= |Texts(groups)[i]| <= limit
  {
    if groups != [] {
      var here, later := ParasOf(groups[0]), Paras(groups[1..]);
      forall i | 0 <= i < |later| ensures later[i] != "" {
        assert later[i] == Paras(groups)[|here| + i];
      }
      TextsAreBounded(groups[1..], limit);
      assert here[0] == Paras(groups)[0];
      GroupIsBounded(groups[0], limit);
    }
  }

  lemma GroupIsBounded(g: Group, limit: nat)
    requires limit >= 1 && WithinLimit(g, limit) && ParasOf(g)[0] != ""
    ensures forall i :: 0 <= i < |TextsOf(g)| ==> 1 <= |TextsOf(g)[i]| <= limit
  {
    if g.Joined? {
      JoinIsLonger(g.paras, 0);
    }
  }

  lemma {:induction false} JoinIsLonger(ps: seq<string>, i: nat)
    requires i < |ps|
    ensures |Join(ps)| >= |ps[i]|
  {
    if |ps| > 1 && i < |ps| - 1 {
      JoinIsLonger(ps[..|ps| - 1], i);
    }
  }

  /**
   `_split_into_parents` on any text: a lossless packing of its paragraphs into parents of 1 to `limit`
   characters.
   */
  lemma ParentsAreLossless(text: string, limit: nat)
    requires limit >= 1
    ensures var groups := Pack(Paragraphs(text), [], limit);
            && IsPacking(groups, limit) && Paras(groups) == Paragraphs(text)
            && forall i :: 0 <= i < |Texts(groups)| ==> 1 <= |Texts(groups)[i]| <= limit
  {
    PackIsLossless(Paragraphs(text), [], limit);
    PackIsWithinLimit(Paragraphs(text), [], limit);
    assert [] + Paragraphs(text) == Paragraphs(text);
    TextsAreBounded(Pack(Paragraphs(text), [], limit), limit);
  }

  // ---- No character of the text is lost ---------------------------------------------------------------

  ghost predicate AllSpaces(s: string) {
    forall i :: 0 <= i < |s| ==> IsSpace(s[i])
  }

  ghost predicate Around(s: string, before: string, middle: string, after: string) {
    s == before + middle + after && AllSpaces(before) && AllSpaces(after)
  }

  lemma SpaceInFront(s: string, before: string, middle: string, after: string)
    requires s != "" && IsSpace(s[0]) && Around(s[1..], before, middle, after)
    ensures Around(s, [s[0]] + before, middle, after)
  {
    assert s == [s[0]] + s[1..];
    assert [s[0]] + (before + middle + after) == ([s[0]] + before) + middle + after;
  }

  lemma SpaceBehind(s: string, before: string, middle: string, after: string)
    requires s != "" && IsSpace(s[|s| - 1]) && Around(s[..|s| - 1], before, middle, after)
    ensures Around(s, before, middle, after + [s[|s| - 1]])
  {
    var last := [s[|s| - 1]];
    assert s == s[..|s| - 1] + last;
    assert (before + middle + after) + last == before + middle + (after + last);
  }

  lemma NothingAround(s: string)
    ensures Around(s, "", s, "")
  {
  }

  /** Stripping takes spaces off both ends and nothing else. */
  lemma {:induction false} StripKeeps(s: string) returns (before: string, after: string)
    ensures Around(s, before, Strip(s), after)
    decreases |s|
  {
    if s != "" && IsSpace(s[0]) {
      before, after := StripKeeps(s[1..]);
      SpaceInFront(s, before, Strip(s[1..]), after);
      before := [s[0]] + before;
    } else if s != "" && IsSpace(s[|s| - 1]) {
      before, after := StripKeeps(s[..|s| - 1]);
      SpaceBehind(s, before, Strip(s[..|s| - 1]), after);
      after := after + [s[|s| - 1]];
    } else {
      before, after := "", "";
      NothingAround(s);
    }
  }

  /** The paragraphs of these pieces from the `k`-th on, and which piece each of them is. */
  lemma {:induction false} ParagraphsFrom(pieces: seq<string>, k: nat) returns (from: seq<nat>)
    requires k <= |pieces|
    ensures ArePieces(pieces, k, Stripped(pieces[k..]), from)
    decreases |pieces| - k
  {
    from := [];
    if k < |pieces| {
      var rest := ParagraphsFrom(pieces, k + 1);
      assert pieces[k..][1..] == pieces[k + 1..] && pieces[k..][0] == pieces[k];
      if Strip(pieces[k]) == "" {
        from := rest;
        BlankPiece(pieces, k, Stripped(pieces[k + 1..]), rest);
        assert [] + Stripped(pieces[k + 1..]) == Stripped(pieces[k + 1..]);
      } else {
        from := [k] + rest;
        OnePiece(pieces, k, Stripped(pieces[k + 1..]), rest);
      }
    }
  }

  lemma OnePiece(pieces: seq<string>, k: nat, paras: seq<string>, rest: seq<nat>)
    requires k < |pieces| && ArePieces(pieces, k + 1, paras, rest)
    ensures ArePieces(pieces, k, [Strip(pieces[k])] + paras, [k] + rest)
  {
    assert forall n: nat :: n in rest ==> n in [k] + rest;
    assert ([k] + rest)[0] == k;
  }

  lemma BlankPiece(pieces: seq<string>, k: nat, paras: seq<string>, rest: seq<nat>)
    requires k < |pieces| && ArePieces(pieces, k + 1, paras, rest) && Strip(pieces[k]) == ""
    ensures ArePieces(pieces, k, paras, rest)
  {
    var before, after := StripKeeps(pieces[k]);
    assert pieces[k] == before + after;
  }

  ghost predicate AllOthersBlank(pieces: seq<string>, k: nat, from: seq<nat>) {
    forall n: nat :: k <= n < |pieces| && n !in from ==> AllSpaces(pieces[n])
  }

  /** In order, these are the stripped pieces at the places `from`; every other piece from `k` on is all spaces. */
  ghost predicate ArePieces(pieces: seq<string>, k: nat, paras: seq<string>, from: seq<nat>) {
    && |from| == |paras|
    && (forall i, j :: 0 <= i < j < |from| ==> from[i] < from[j])
    && (forall i :: 0 <= i < |from| ==> k <= from[i] < |pieces| && paras[i] == Strip(pieces[from[i]]))
    && AllOthersBlank(pieces, k, from)
  }

  /** The paragraphs are the stripped pieces of the text, in order, less those that are all spaces. */
  lemma ParagraphsArePieces(text: string)
    ensures exists from :: ArePieces(Split(text), 0, Paragraphs(text), from)
  {
    var from := ParagraphsFrom(Split(text), 0);
    assert Split(text)[0..] == Split(text);
    assert ArePieces(Split(text), 0, Paragraphs(text), from);
  }

  /** The characters of a text that are not spaces, in order. */
  function Ink(s: string): string {
    if s == "" then "" else (if IsSpace(s[0]) then "" else [s[0]]) + Ink(s[1..])
  }

  lemma {:induction false} InkAppend(a: string, b: string)
    ensures Ink(a + b) == Ink(a) + Ink(b)
  {
    if a == "" {
      AppendEmpty(b);
      AppendEmpty(Ink(b));
    } else {
      AppendTail(a, b);
      InkAppend(a[1..], b);
      Regroup(if IsSpace(a[0]) then "" else [a[0]], Ink(a[1..]), Ink(b));
    }
  }

  lemma {:induction false} SpacesHaveNoInk(s: string)
    requires AllSpaces(s)
    ensures Ink(s) == ""
  {
    if s != "" {
      SpacesHaveNoInk(s[1..]);
    }
  }

  lemma InkStrip(s: string)
    ensures Ink(Strip(s)) == Ink(s)
  {
    var before, after := StripKeeps(s);
    InkAppend(before + Strip(s), after);
    InkAppend(before, Strip(s));
    SpacesHaveNoInk(before);
    SpacesHaveNoInk(after);
  }

  lemma {:induction false} ConcatAppend(a: seq<string>, b: seq<string>)
    ensures Concat(a + b) == Concat(a) + Concat(b)
  {
    if a == [] {
      AppendEmpty(b);
      AppendEmpty(Concat(b));
    } else {
      AppendTail(a, b);
      ConcatAppend(a[1..], b);
      Regroup(a[0], Concat(a[1..]), Concat(b));
    }
  }

  lemma {:induction false} InkJoin(pieces: seq<string>)
    ensures Ink(Join(pieces)) == Ink(Concat(pieces))
  {
    if pieces != [] {
      var front, last := pieces[..|pieces| - 1], pieces[|pieces| - 1];
      assert pieces == front + [last];
      ConcatAppend(front, [last]);
      assert Concat([last]) == last;
      InkAppend(Concat(front), last);
      if front != [] {
        InkJoin(front);
        InkAppend(Join(front) + SEPARATOR, last);
        InkAppend(Join(front), SEPARATOR);
        SpacesHaveNoInk(SEPARATOR);
      }
    }
  }

  lemma {:induction false} InkStripped(pieces: seq<string>)
    ensures Ink(Concat(Stripped(pieces))) == Ink(Concat(pieces))
  {
    if pieces != [] {
      InkStripped(pieces[1..]);
      InkStrip(pieces[0]);
      InkAppend(pieces[0], Concat(pieces[1..]));
      var kept, rest := Strip(pieces[0]), Stripped(pieces[1..]);
      InkAppend(kept, Concat(rest));
      assert ([kept] + rest)[1..] == rest && [] + rest == rest && "" + Concat(rest) == Concat(rest);
    }
  }

  lemma {:induction false} InkTexts(groups: seq<Group>)
    ensures Ink(Concat(Texts(groups))) == Ink(Concat(Paras(groups)))
  {
    if groups != [] {
      InkTexts(groups[1..]);
      var g := groups[0];
      assert Ink(Concat(TextsOf(g))) == Ink(Concat(ParasOf(g))) by {
        match g
        case Joined(ps) =>
          InkJoin(ps);
          assert Concat([Join(ps)]) == Join(ps);
        case Cut(pieces) => assert Concat([Concat(pieces)]) == Concat(pieces);
      }
      ConcatAppend(TextsOf(g), Texts(groups[1..]));
      ConcatAppend(ParasOf(g), Paras(groups[1..]));
      InkAppend(Concat(TextsOf(g)), Concat(Texts(groups[1..])));
      InkAppend(Concat(ParasOf(g)), Concat(Paras(groups[1..])));
    }
  }

  /** End to end: the characters of the parents that are not spaces are exactly those of the text, in order. */
  lemma ParentsKeepTheText(text: string, limit: nat)
    requires limit >= 1
    ensures Ink(Concat(Texts(Pack(Paragraphs(text), [], limit)))) == Ink(text)
  {
    ParentsAreLossless(text, limit);
    InkTexts(Pack(Paragraphs(text), [], limit));
    InkStripped(Split(text));
    InkJoin(Split(text));
    SplitJoin(text);
  }

  // ---- Greedy is optimal ------------------------------------------------------------------------------

  lemma {:induction false} SuffixIsShorter(c: seq<string>, k: nat)
    requires k <= |c|
    ensures |Join(c[k..])| <= |Join(c)|
  {
    if k < |c| && |c| > 1 {
      if k == |c| - 1 {
        JoinIsLonger(c, k);
      } else {
        var front := c[..|c| - 1];
        SuffixIsShorter(front, k);
        assert c[k..][..|c[k..]| - 1] == front[k..];
      }
    }
  }

  /** A shorter open parent never costs a parent more than a longer one that ends the same way. */
  lemma {:induction false} ShorterIsNoWorse(c: seq<string>, k: nat, paras: seq<string>, limit: nat)
    requires limit >= 1 && k < |c|
    ensures |Pack(paras, c[k..], limit)| <= |Pack(paras, c, limit)|
    decreases |paras|
  {
    if paras != [] && |paras[0]| <= limit {
      var para, rest := paras[0], paras[1..];
      SuffixIsShorter(c, k);
      assert (c + [para])[k..] == c[k..] + [para];
      if Fits(c, para, limit) {
        ShorterIsNoWorse(c + [para], k, rest, limit);
      } else if Fits(c[k..], para, limit) {
        var d := c[k..] + [para];
        assert d[|d| - 1..] == [para];
        OneMoreAtMost(d, |d| - 1, rest, limit);
      }
    }
  }

  /** An open parent costs at most one parent more than any end of it, the empty one included. */
  lemma {:induction false} OneMoreAtMost(c: seq<string>, k: nat, paras: seq<string>, limit: nat)
    requires limit >= 1 && c != [] && k <= |c|
    ensures |Pack(paras, c, limit)| <= 1 + |Pack(paras, c[k..], limit)|
    decreases |paras|
  {
    if paras != [] && |paras[0]| <= limit {
      var para, rest := paras[0], paras[1..];
      SuffixIsShorter(c, k);
      assert (c + [para])[k..] == c[k..] + [para];
      if Fits(c, para, limit) {
        OneMoreAtMost(c + [para], k, rest, limit);
      } else if Fits(c[k..], para, limit) {
        var d := c[k..] + [para];
        assert d[|d| - 1..] == [para];
        ShorterIsNoWorse(d, |d| - 1, rest, limit);
      }
    }
  }

  /** Paragraphs that fit together are put together. */
  lemma {:induction false} Absorb(c: seq<string>, q: seq<string>, rest: seq<string>, limit: nat)
    requires limit >= 1 && |Join(c + q)| <= limit
    ensures Pack(q + rest, c, limit) == Pack(rest, c + q, limit)
    decreases |q|
  {
    if q == [] {
      assert q + rest == rest && c + q == c;
    } else {
      var c' := c + [q[0]];
      assert c' + q[1..] == c + q && (q + rest)[1..] == q[1..] + rest;
      assert (c + q)[..|c'|] == c';
      PrefixIsShorter(c + q, |c'|);
      JoinAppend(c, q[0]);
      Absorb(c', q[1..], rest, limit);
    }
  }

  lemma {:induction false} PrefixIsShorter(c: seq<string>, n: nat)
    requires n <= |c|
    ensures |Join(c[..n])| <= |Join(c)|
  {
    if n < |c| {
      PrefixIsShorter(c[..|c| - 1], n);
      assert c[..|c| - 1][..n] == c[..n];
    } else {
      assert c[..n] == c;
    }
  }

  /** No packing of the same paragraphs within the limit has fewer groups. */
  lemma {:induction false} GreedyIsOptimal(groups: seq<Group>, limit: nat)
    requires limit >= 1 && IsPacking(groups, limit)
    ensures |Pack(Paras(groups), [], limit)| <= |groups|
  {
    if groups != [] {
      var g, later := groups[0], Paras(groups[1..]);
      assert WithinLimit(g, limit);
      GreedyIsOptimal(groups[1..], limit);
      match g
      case Joined(ps) =>
        assert [] + ps == ps;
        Absorb([], ps, later, limit);
        assert ps[|ps|..] == [];
        OneMoreAtMost(ps, |ps|, later, limit);
      case Cut(pieces) =>
        assert ([Concat(pieces)] + later)[1..] == later;
    }
  }

  /** An oversized paragraph separates the runs around it: each is packed, and so is optimal, on its own. */
  lemma {:induction false} RunsAreIndependent(
      before: seq<string>, long: string, after: seq<string>, current: seq<string>, limit: nat)
    requires limit >= 1 && |long| > limit
    ensures Pack(before + [long] + after, current, limit) ==
            Pack(before, current, limit) + [Cut(Slices(long, limit))] + Pack(after, [], limit)
    decreases |before|
  {
    var all := before + [long] + after;
    if before == [] {
      assert all[0] == long && all[1..] == after;
    } else {
      assert all[0] == before[0] && all[1..] == before[1..] + [long] + after;
      var next :=
        if |before[0]| > limit then []
        else if Fits(current, before[0], limit) then current + [before[0]]
        else [before[0]];
      RunsAreIndependent(before[1..], long, after, next, limit);
    }
  }
}
