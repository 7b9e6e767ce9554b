/** The overlapping child windows of one parent, and `chunk_text` as a whole (app/ingestion/chunking.py). */
module Windows {
  import opened Wrappers
  import opened Chunking

  /** Python's `text[a:b]` for a non-negative start: a negative end counts from the back. */
  function PySlice(text: string, a: nat, b: int): string {
    var n := |text|;
    var hi := if b < 0 then b + n else if b > n then n else b;
    if a < hi then text[a..hi] else ""
  }

  function WindowsFrom(text: string, start: nat, size: int, step: nat): seq<string>
    requires step >= 1
    decreases |text| - start
  {
    if start >= |text| then []
    else if start + size >= |text| then [PySlice(text, start, start + size)]
    else [PySlice(text, start, start + size)] + WindowsFrom(text, start + step, size, step)
  }

  function WindowsOf(text: string, size: int, overlap: int): seq<string>
    requires overlap < size
  {
    if |text| <= size then [text] else WindowsFrom(text, 0, size, size - overlap)
  }

  /** `_sliding_window`: `start` advances by one step until a window reaches the end. */
  method SlidingWindow(text: string, size: int, overlap: int) returns (windows: seq<string>)
    requires overlap < size
    ensures windows == WindowsOf(text, size, overlap)
  {
    if |text| <= size {
      return [text];
    }
    var step := size - overlap;
    windows := [];
    var start := 0;
    while start < |text|
      invariant 0 <= start
      invariant windows + WindowsFrom(text, start, size, step) == WindowsFrom(text, 0, size, step)
    {
      windows := windows + [PySlice(text, start, start + size)];
      if start + size >= |text| {
        break;
      }
      start := start + step;
    }
  }

  // ---- Coverage, reconstruction, count ----------------------------------------------------------------

  ghost predicate OccursAt(part: string, window: string, at: nat) {
    at + |part| <= |window| && window[at..at + |part|] == part
  }

  ghost predicate InSomeWindow(part: string, windows: seq<string>) {
    exists i: nat, at: nat :: i < |windows| && OccursAt(part, windows[i], at)
  }

  lemma SliceOfSlice(text: string, start: nat, hi: nat, a: nat, b: nat)
    requires start <= a <= b <= hi <= |text|
    ensures text[start..hi][a - start..b - start] == text[a..b]
  {
    var inner := text[start..hi][a - start..b - start];
    forall k | 0 <= k < b - a ensures inner[k] == text[a..b][k] {
      assert inner[k] == text[start..hi][a - start + k];
    }
  }

  lemma {:induction false} CoveredFrom(text: string, start: nat, size: nat, overlap: nat, a: nat, b: nat)
    requires overlap < size && start < |text| && start <= a <= b <= |text| && b - a <= overlap + 1
    ensures InSomeWindow(text[a..b], WindowsFrom(text, start, size, size - overlap))
    decreases |text| - start
  {
    var step := size - overlap;
    var windows := WindowsFrom(text, start, size, step);
    if b <= start + size {
      var hi := if start + size < |text| then start + size else |text|;
      assert windows[0] == text[start..hi];
      SliceOfSlice(text, start, hi, a, b);
      assert OccursAt(text[a..b], windows[0], a - start);
    } else {
      CoveredFrom(text, start + step, size, overlap, a, b);
      var rest := WindowsFrom(text, start + step, size, step);
      var i: nat, at: nat :| i < |rest| && OccursAt(text[a..b], rest[i], at);
      assert windows[i + 1] == rest[i];
    }
  }

  /** Every passage of at most `overlap + 1` characters lies whole inside some window. */
  lemma EveryPassageIsInSomeWindow(text: string, size: nat, overlap: nat, a: nat, b: nat)
    requires overlap < size && a <= b <= |text| && b - a <= overlap + 1
    ensures InSomeWindow(text[a..b], WindowsOf(text, size, overlap))
  {
    if |text| <= size {
      assert OccursAt(text[a..b], WindowsOf(text, size, overlap)[0], a);
    } else {
      CoveredFrom(text, 0, size, overlap, a, b);
    }
  }

  /** The windows with the first `overlap` characters of each dropped, put end to end. */
  function Glued(windows: seq<string>, overlap: nat): string {
    if windows == [] then ""
    else (if overlap <= |windows[0]| then windows[0][overlap..] else "") + Glued(windows[1..], overlap)
  }

  function Rebuilt(windows: seq<string>, overlap: nat): string {
    if windows == [] then "" else windows[0] + Glued(windows[1..], overlap)
  }

  lemma {:induction false} GluedFrom(text: string, start: nat, size: nat, overlap: nat)
    requires overlap < size && start + overlap < |text|
    ensures Glued(WindowsFrom(text, start, size, size - overlap), overlap) == text[start + overlap..]
    decreases |text| - start
  {
    var step := size - overlap;
    var windows := WindowsFrom(text, start, size, step);
    if start + size < |text| {
      GluedFrom(text, start + step, size, overlap);
      assert windows[1..] == WindowsFrom(text, start + step, size, step);
      assert text[start + overlap..] == text[start + overlap..start + size] + text[start + size..];
    } else {
      assert windows[0][overlap..] == text[start + overlap..];
    }
  }

  /** The first window and the new part of each later one rebuild the text. */
  lemma WindowsRebuildTheText(text: string, size: nat, overlap: nat)
    requires overlap < size
    ensures Rebuilt(WindowsOf(text, size, overlap), overlap) == text
  {
    var step := size - overlap;
    if |text| > size {
      GluedFrom(text, step, size, overlap);
      assert WindowsOf(text, size, overlap)[1..] == WindowsFrom(text, step, size, step);
      assert text == text[..size] + text[size..];
    }
  }

  /** The number `m` of steps of this size that just cover `x`. */
  ghost predicate IsCeiling(m: int, x: int, step: int) {
    (m - 1) * step < x <= m * step
  }

  lemma {:induction false} CountFrom(text: string, start: nat, size: nat, overlap: nat)
    requires overlap < size && start + size < |text|
    ensures IsCeiling(|WindowsFrom(text, start, size, size - overlap)| - 1, |text| - size - start, size - overlap)
    decreases |text| - start
  {
    var step := size - overlap;
    var windows, rest := WindowsFrom(text, start, size, step), WindowsFrom(text, start + step, size, step);
    assert windows == [windows[0]] + rest;
    var m := |rest|;
    if start + step + size < |text| {
      CountFrom(text, start + step, size, overlap);
      assert m * step == (m - 1) * step + step && (m - 1) * step == (m - 2) * step + step;
    } else {
      assert m == 1;
    }
  }

  /** A text longer than one window has one more window than the steps that cover the excess. */
  lemma WindowCount(text: string, size: nat, overlap: nat)
    requires overlap < size < |text|
    ensures |WindowsOf(text, size, overlap)| == 1 + (|text| - size + (size - overlap) - 1) / (size - overlap)
  {
    CountFrom(text, 0, size, overlap);
    CeilingIsDivision(|WindowsOf(text, size, overlap)| - 1, |text| - size, size - overlap);
  }

  lemma CeilingIsDivision(m: int, x: int, step: int)
    requires step >= 1 && IsCeiling(m, x, step)
    ensures m == (x + step - 1) / step
  {
    var q, r := (x + step - 1) / step, (x + step - 1) % step;
    assert x + step - 1 == q * step + r;
    if q < m {
      TimesIsMonotone(q, m - 1, step);
    } else if q > m {
      TimesIsMonotone(m + 1, q, step);
    }
  }

  lemma TimesIsMonotone(a: int, b: int, step: int)
    requires a <= b && step >= 0
    ensures a * step <= b * step
  {
  }

  /** Where the window of this number begins. */
  function StartOf(start: nat, step: nat, i: nat): nat
    decreases i
  {
    if i == 0 then start else StartOf(start + step, step, i - 1)
  }

  lemma {:induction false} WindowAt(text: string, start: nat, size: int, step: nat, i: nat)
    requires step >= 1 && i < |WindowsFrom(text, start, size, step)|
    ensures var at := StartOf(start, step, i);
            at < |text| && WindowsFrom(text, start, size, step)[i] == PySlice(text, at, at + size)
    ensures StartOf(start, step, i) >= start && (i > 0 ==> StartOf(start, step, i) >= start + step)
    decreases i
  {
    if i > 0 {
      WindowAt(text, start + step, size, step, i - 1);
    }
  }

  /** The character at position `p` of the text lies in some window. */
  ghost predicate IsKept(text: string, size: int, overlap: int, p: nat)
    requires overlap < size
  {
    exists i: nat :: i < |WindowsOf(text, size, overlap)|
                     && Reaches(WindowsOf(text, size, overlap)[i], StartOf(0, size - overlap, i), text, p)
  }

  ghost predicate Reaches(window: string, at: nat, text: string, p: nat) {
    at <= p < at + |window| && p < |text| && window[p - at] == text[p]
  }

  lemma {:induction false} WindowHolding(text: string, start: nat, size: nat, overlap: nat, p: nat) returns (i: nat)
    requires overlap < size && start <= p < |text|
    ensures var windows, at := WindowsFrom(text, start, size, size - overlap), StartOf(start, size - overlap, i);
            i < |windows| && Reaches(windows[i], at, text, p)
    decreases |text| - start
  {
    i := 0;
    if start + size <= p {
      var step := size - overlap;
      var j := WindowHolding(text, start + step, size, overlap, p);
      i := j + 1;
      assert WindowsFrom(text, start, size, step)[i] == WindowsFrom(text, start + step, size, step)[j];
    }
  }

  /** A position that no window holds when the windows leave gaps: just after the first, or the last of all. */
  lemma SomePositionIsLost(text: string, size: int, overlap: int)
    requires overlap < size && overlap < 0 && size < |text| && text != ""
    ensures var p: nat := if size >= 1 then size else |text| - 1; !IsKept(text, size, overlap, p)
  {
    var p, step, windows := if size >= 1 then size else |text| - 1, size - overlap, WindowsOf(text, size, overlap);
    forall i: nat | i < |windows|
      ensures !Reaches(windows[i], StartOf(0, step, i), text, p)
    {
      WindowAt(text, 0, size, step, i);
    }
  }

  /**
   The windows lose no character of the text exactly when the overlap is not negative, or the text fits one
   window, or there is no text: for every size, negative ones too.
   */
  lemma WindowsKeepTheTextExactlyWhen(text: string, size: int, overlap: int)
    requires overlap < size
    ensures (forall p: nat :: p < |text| ==> IsKept(text, size, overlap, p))
            <==> overlap >= 0 || |text| <= size || text == ""
  {
    var windows := WindowsOf(text, size, overlap);
    if |text| <= size {
      forall p: nat | p < |text| ensures IsKept(text, size, overlap, p) {
        assert Reaches(windows[0], StartOf(0, size - overlap, 0), text, p);
      }
    } else if overlap >= 0 {
      forall p: nat | p < |text| ensures IsKept(text, size, overlap, p) {
        var i := WindowHolding(text, 0, size, overlap, p);
      }
    } else if text != "" {
      SomePositionIsLost(text, size, overlap);
    }
  }

  // ---- chunk_text -------------------------------------------------------------------------------------

  datatype ParentChunk = ParentChunk(parentId: string, text: string, children: seq<string>)

  function Chunks(texts: seq<string>, ids: nat -> string, size: int, overlap: int): (chunks: seq<ParentChunk>)
    requires overlap < size
    ensures |chunks| == |texts|
    ensures forall i :: 0 <= i < |texts| ==>
            chunks[i] == ParentChunk(ids(i), texts[i], WindowsOf(texts[i], size, overlap))
  {
    seq(|texts|, i requires 0 <= i < |texts| => ParentChunk(ids(i), texts[i], WindowsOf(texts[i], size, overlap)))
  }

  /** `chunk_text`, `ids` being the random ids it draws: one chunk per parent, its windows as children. */
  method ChunkText(text: string, ids: nat -> string, parentChars: int, size: int, overlap: int)
    returns (r: Result<seq<ParentChunk>, string>)
    ensures overlap >= size ==> r.Err?
    ensures overlap < size && parentChars >= 1 ==>
            r == Ok(Chunks(Texts(Pack(Paragraphs(text), [], parentChars)), ids, size, overlap))
    ensures overlap < size && parentChars == 0 ==> (r.Err? <==> Paragraphs(text) != [])
    ensures overlap < size && parentChars < 0 ==> r == Ok([])
  {
    if overlap >= size {
      return Err("child_overlap must be smaller than child_chars");
    }
    var parents := SplitIntoParents(text, parentChars);
    match parents
    case Err(e) => return Err(e);
    case Ok(texts) =>
      var chunks: seq<ParentChunk> := [];
      for i := 0 to |texts|
        invariant chunks == Chunks(texts, ids, size, overlap)[..i]
      {
        var children := SlidingWindow(texts[i], size, overlap);
        chunks := chunks + [ParentChunk(ids(i), texts[i], children)];
      }
      assert chunks == Chunks(texts, ids, size, overlap);
      return Ok(chunks);
  }
}
