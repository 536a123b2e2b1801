/**
  `cleanMessage` of the briefing modal: every match of

      \[ONE_THING_SELECTED\][\s\S]*\[\/ONE_THING_SELECTED\]

  is replaced by the empty string (global flag), then the text is trimmed. The greedy
  `[\s\S]*` first runs to the end of the text and gives characters back one at a time, so
  a match at a start position ends with the LAST closing marker after the opening one;
  the leftmost start position with a match wins, and the search resumes after a match.
 */
module MarkerClean {
  import opened Wrappers
  import opened Text
  import opened MarkerParse

  /** A matched stretch `s[start..end]`. */
  datatype Span = Span(start: nat, end: nat)

  /** The greedy `[\s\S]*\[\/ONE_THING_SELECTED\]` from `lo`: the closing marker tried at
      `j`, then one position earlier each time, down to `lo`. */
  function LastClose(s: string, lo: nat, j: nat): (r: Option<nat>)
    ensures r.Some? ==> lo <= r.value <= j && Occurs(s, r.value, Close)
    decreases j
  {
    if j < lo then None
    else if Occurs(s, j, Close) then Some(j)
    else if j == 0 then None
    else LastClose(s, lo, j - 1)
  }

  /** The greedy search finds the last closing marker from `lo` through `j`, and none
      when there is none. */
  lemma {:induction false} LastCloseSound(s: string, lo: nat, j: nat)
    ensures var r := LastClose(s, lo, j);
      && (r.Some? ==> forall k :: r.value < k <= j ==> !Occurs(s, k, Close))
      && (r.None? ==> forall k :: lo <= k <= j ==> !Occurs(s, k, Close))
    decreases j
  {
    if lo <= j && !Occurs(s, j, Close) && j > 0 {
      LastCloseSound(s, lo, j - 1);
    }
  }

  /** The greedy search finds the closing marker at `j` when none stands after it. */
  lemma {:induction false} LastCloseAt(s: string, lo: nat, hi: nat, j: nat)
    requires lo <= j <= hi && Occurs(s, j, Close)
    requires forall k :: j < k <= hi ==> !Occurs(s, k, Close)
    ensures LastClose(s, lo, hi) == Some(j)
    decreases hi
  {
    if j < hi {
      LastCloseAt(s, lo, hi - 1, j);
    }
  }

  /** The whole pattern tried at `p`; the end of the match. */
  function BlockAt(s: string, p: nat): (r: Option<nat>)
    ensures r.Some? ==> Occurs(s, p, Open) && Occurs(s, r.value - |Close|, Close)
    ensures r.Some? ==> p + |Open| + |Close| <= r.value <= |s|
  {
    if Occurs(s, p, Open) then
      match LastClose(s, p + |Open|, |s|)
      case Some(j) => Some(j + |Close|)
      case None => None
    else None
  }

  /** A match at `p` ends with the last closing marker of the text; there is none at `p`
      when no opening marker stands there or no closing marker follows it. */
  lemma BlockAtSound(s: string, p: nat)
    ensures var r := BlockAt(s, p);
      && (r.Some? ==> forall k :: r.value - |Close| < k <= |s| ==> !Occurs(s, k, Close))
      && (r.None? ==> !Occurs(s, p, Open) || forall k :: p + |Open| <= k <= |s| ==> !Occurs(s, k, Close))
  {
    LastCloseSound(s, p + |Open|, |s|);
  }

  /** The leftmost match at or after `from`. It starts at the first opening marker from
      `from` on and ends with the last closing marker of the text. */
  function FirstBlock(s: string, from: nat): (r: Option<Span>)
    requires from <= |s|
    ensures r.Some? ==> from <= r.value.start && r.value.start + |Open| + |Close| <= r.value.end <= |s|
    decreases |s| - from
  {
    match BlockAt(s, from)
    case Some(e) => Some(Span(from, e))
    case None =>
      if from == |s| then None
      else FirstBlock(s, from + 1)
  }

  /** The match found is the one at the first position from `from` where the pattern
      matches. */
  lemma {:induction false} FirstBlockSound(s: string, from: nat)
    requires from <= |s|
    ensures var r := FirstBlock(s, from);
      && (r.Some? ==> BlockAt(s, r.value.start) == Some(r.value.end))
      && (r.Some? ==> forall x :: from <= x < r.value.start ==> !Occurs(s, x, Open))
    decreases |s| - from
  {
    BlockAtSound(s, from);
    if BlockAt(s, from).None? && from < |s| {
      FirstBlockSound(s, from + 1);
    }
  }

  /** When no match is found, no opening marker from `from` on has a closing marker after it. */
  lemma {:induction false} FirstBlockNone(s: string, from: nat)
    requires from <= |s| && FirstBlock(s, from).None?
    ensures forall i, j :: from <= i && Occurs(s, i, Open) && i + |Open| <= j ==> !Occurs(s, j, Close)
    decreases |s| - from
  {
    BlockAtSound(s, from);
    if from < |s| {
      FirstBlockNone(s, from + 1);
    }
  }

  /** The search from `from` reaches the first opening marker at `i`. */
  lemma {:induction false} FirstBlockAt(s: string, from: nat, i: nat)
    requires from <= i <= |s| && BlockAt(s, i).Some?
    requires forall x :: from <= x < i ==> !Occurs(s, x, Open)
    ensures FirstBlock(s, from) == Some(Span(i, BlockAt(s, i).value))
    decreases i - from
  {
    if from < i {
      FirstBlockAt(s, from + 1, i);
    }
  }

  /** With no closing marker from `from` on, nothing matches from `from` on. */
  lemma {:induction false} NoBlockFrom(s: string, from: nat)
    requires from <= |s|
    requires forall k :: from <= k <= |s| ==> !Occurs(s, k, Close)
    ensures FirstBlock(s, from).None?
    decreases |s| - from
  {
    if from < |s| {
      NoBlockFrom(s, from + 1);
    }
  }

  /** `s.replace(pattern, '')` with the global flag, on the text from `from` on. */
  function RemoveBlocks(s: string, from: nat): (r: string)
    requires from <= |s|
    decreases |s| - from
  {
    match FirstBlock(s, from)
    case None => s[from..]
    case Some(b) => s[from..b.start] + RemoveBlocks(s, b.end)
  }

  /** `cleanMessage`: the text as displayed, without the completion block. */
  function Clean(content: string): (r: string)
    ensures IsTrimmed(r)
  {
    Trim(RemoveBlocks(content, 0))
  }

  /** After a match nothing more matches: the match took the last closing marker. */
  lemma RemovesOneBlock(s: string)
    ensures FirstBlock(s, 0).Some? ==>
      var b := FirstBlock(s, 0).value;
      RemoveBlocks(s, 0) == s[..b.start] + s[b.end..]
    ensures FirstBlock(s, 0).None? ==> RemoveBlocks(s, 0) == s
  {
    if FirstBlock(s, 0).Some? {
      var b := FirstBlock(s, 0).value;
      RemovesBlock(s, b.start, b.end);
    }
  }

  /** The replacement cuts the first match `b` and nothing else. */
  lemma RemovesBlock(s: string, start: nat, end: nat)
    requires FirstBlock(s, 0) == Some(Span(start, end))
    ensures RemoveBlocks(s, 0) == s[..start] + s[end..]
  {
    FirstBlockSound(s, 0);
    BlockAtSound(s, start);
    NoBlockFrom(s, end);
  }

  /** Some match exists exactly when an opening marker has a closing marker after it. */
  lemma FirstBlockIffMarkers(s: string)
    ensures FirstBlock(s, 0).Some? <==> OpenThenClose(s)
  {
    FirstBlockSound(s, 0);
    if FirstBlock(s, 0).None? {
      FirstBlockNone(s, 0);
    } else {
      var b := FirstBlock(s, 0).value;
      assert Occurs(s, b.start, Open) && Occurs(s, b.end - |Close|, Close);
    }
  }

  /** Without an opening marker followed by a closing one, the text is only trimmed. */
  lemma CleanOnlyTrims(s: string)
    requires !OpenThenClose(s)
    ensures Clean(s) == Trim(s)
  {
    FirstBlockIffMarkers(s);
    RemovesOneBlock(s);
  }

  /** With the first opening marker at `i` and the last closing marker at `j` after it,
      everything from `i` through the end of that closing marker is cut, then the text
      is trimmed. */
  lemma CleanCutsOuterBlock(s: string, i: nat, j: nat)
    requires Occurs(s, i, Open) && i + |Open| <= j && Occurs(s, j, Close)
    requires forall x :: 0 <= x < i ==> !Occurs(s, x, Open)
    requires forall k :: j < k <= |s| ==> !Occurs(s, k, Close)
    ensures Clean(s) == Trim(s[..i] + s[j + |Close|..])
  {
    CutOuterBlock(s, i, j);
  }

  /** The first match spans from the first opening marker through the last closing
      marker, and the replacement cuts `s[i..j + |Close|]` and nothing else. */
  lemma CutOuterBlock(s: string, i: nat, j: nat)
    requires Occurs(s, i, Open) && i + |Open| <= j && Occurs(s, j, Close)
    requires forall x :: 0 <= x < i ==> !Occurs(s, x, Open)
    requires forall k :: j < k <= |s| ==> !Occurs(s, k, Close)
    ensures FirstBlock(s, 0) == Some(Span(i, j + |Close|))
    ensures RemoveBlocks(s, 0) == s[..i] + s[j + |Close|..]
  {
    LastCloseAt(s, i + |Open|, |s|, j);
    assert BlockAt(s, i) == Some(j + |Close|);
    FirstBlockAt(s, 0, i);
    RemovesBlock(s, i, j + |Close|);
  }

  /** Cutting the outer block leaves no opening marker followed by a closing one: a
      closing marker that is left either lies after the cut, where the last closing
      marker was cut, or has its opening marker before the first one. */
  lemma CutHidesMarkers(s: string)
    requires FirstBlock(s, 0).Some?
    ensures var b := FirstBlock(s, 0).value;
      !OpenThenClose(s[..b.start] + s[b.end..])
  {
    var b := FirstBlock(s, 0).value;
    FirstBlockSound(s, 0);
    BlockAtSound(s, b.start);
    var x, y := s[..b.start], s[b.end..];
    forall i, j | Occurs(x + y, i, Open) && i + |Open| <= j
      ensures !Occurs(x + y, j, Close)
    {
      if Occurs(x + y, j, Close) {
        if j < |x| {
          OccursInLeft(x, y, i, Open);
          OccursInSlice(s, 0, b.start, i, Open);
        } else {
          OccursInRight(x, y, j, Close);
          assert s[b.end..|s|] == y;
          OccursInSlice(s, b.end, |s|, j - |x|, Close);
        }
      }
    }
  }

  /** A block in a slice of a text is a block in the text. */
  lemma MarkersOfSlice(s: string, lo: nat, hi: nat)
    requires lo <= hi <= |s|
    requires OpenThenClose(s[lo..hi])
    ensures OpenThenClose(s)
  {
    var i, j :| Occurs(s[lo..hi], i, Open) && i + |Open| <= j && Occurs(s[lo..hi], j, Close);
    OccursInSlice(s, lo, hi, i, Open);
    OccursInSlice(s, lo, hi, j, Close);
  }

  /** What the modal displays never shows an opening marker followed by a closing one. */
  lemma CleanHidesMarkers(s: string)
    ensures !OpenThenClose(Clean(s))
  {
    var x := RemoveBlocks(s, 0);
    RemovesOneBlock(s);
    if FirstBlock(s, 0).Some? {
      CutHidesMarkers(s);
    } else {
      FirstBlockIffMarkers(s);
    }
    assert !OpenThenClose(x);
    var t := Trim(x);
    var i, j :| 0 <= i <= j <= |x| && t == x[i..j] && AllSpace(x[..i]) && AllSpace(x[j..]);
    if OpenThenClose(t) {
      MarkersOfSlice(x, i, j);
    }
  }

  /** A reply that ends with a completion block, after text without an opening marker,
      is displayed as that text, trimmed. */
  lemma CleanBlockReply(prefix: string, title: string, goal: string)
    requires !Contains(prefix, Open)
    ensures Clean(prefix + Block(title, goal)) == Trim(prefix)
  {
    var reply := prefix + Block(title, goal);
    BlockMarkers(prefix, title, goal);
    var p := |prefix|;
    var j := |reply| - |Close|;
    forall x | 0 <= x < p
      ensures !Occurs(reply, x, Open)
    {
      NoneStartsInside(reply, 0, p, Open, x);
    }
    CleanCutsOuterBlock(reply, p, j);
    assert reply[..p] + reply[j + |Close|..] == prefix;
  }

  /** A reply that ends with a well-formed completion block after a trimmed sentence is
      shown as that sentence and parsed to the block's title and goal. */
  lemma BlockReply(reply: string, prefix: string, title: string, goal: string)
    requires reply == prefix + Block(title, goal)
    requires IsTrimmed(prefix) && !Contains(prefix, Open)
    requires title != [] && IsTrimmed(title) && !Contains(title, GoalLabel)
    requires goal != [] && IsTrimmed(goal) && !Contains(goal, Close)
    ensures Clean(reply) == prefix && Parse(reply) == Some(Selection(title, goal))
  {
    ParseBlock(prefix, title, goal);
    CleanBlockReply(prefix, title, goal);
  }
}
