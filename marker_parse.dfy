/**
  The completion-marker protocol of the morning briefing: the block the system prompt
  asks the model to end its reply with, and `parseOneThingSelection`, which pulls the
  task title and the goal out of a reply with the regular expression

      \[ONE_THING_SELECTED\]\s*task:\s*([\s\S]+?)\s*goal:\s*([\s\S]+?)\s*\[\/ONE_THING_SELECTED\]

  The matcher below follows the JavaScript engine's search order exactly: the leftmost
  start position wins; at a start, each greedy `\s*` first takes its whole run of
  white space and gives characters back one at a time on failure, and each lazy
  `([\s\S]+?)` first takes one character and takes one more on failure. One function per
  piece of the pattern; each passes the positions found so far in a `Captures` record.
 */
module MarkerParse {
  import opened Wrappers
  import opened Text

  const Open: string := "[ONE_THING_SELECTED]"
  const Close: string := "[/ONE_THING_SELECTED]"
  const TaskLabel: string := "task:"
  const GoalLabel: string := "goal:"

  /** What `parseOneThingSelection` returns when the block is found. */
  datatype Selection = Selection(taskTitle: string, goal: string)

  /** The block route.ts asks the model to end with, filled with a title and a goal. */
  function Block(title: string, goal: string): string {
    Open + "\ntask: " + title + "\ngoal: " + goal + "\n" + Close
  }

  /** Positions of one match: where each literal stands and where each group starts and ends. */
  datatype Captures = Captures(
    openAt: nat,
    taskLabelAt: nat, taskStart: nat, taskEnd: nat,
    goalLabelAt: nat, goalStart: nat, goalEnd: nat,
    closeAt: nat)

  /** From the end of the goal group: `\s*\[\/ONE_THING_SELECTED\]`. */
  predicate CloseOk(s: string, m: Captures) {
    Blank(s, m.goalEnd, m.closeAt) && Occurs(s, m.closeAt, Close)
  }

  /** From the start of the goal group: `([\s\S]+?)\s*\[\/ONE_THING_SELECTED\]`. */
  predicate GoalValueOk(s: string, m: Captures) {
    m.goalStart < m.goalEnd && CloseOk(s, m)
  }

  /** From the `goal:` label on. */
  predicate GoalOk(s: string, m: Captures) {
    Occurs(s, m.goalLabelAt, GoalLabel) && Blank(s, m.goalLabelAt + |GoalLabel|, m.goalStart) && GoalValueOk(s, m)
  }

  /** From the start of the task group on. */
  predicate TaskValueOk(s: string, m: Captures) {
    m.taskStart < m.taskEnd && Blank(s, m.taskEnd, m.goalLabelAt) && GoalOk(s, m)
  }

  /** From the `task:` label on. */
  predicate TaskOk(s: string, m: Captures) {
    Occurs(s, m.taskLabelAt, TaskLabel) && Blank(s, m.taskLabelAt + |TaskLabel|, m.taskStart) && TaskValueOk(s, m)
  }

  /** `m` is a match of the whole pattern in `s`. */
  predicate IsMatch(s: string, m: Captures) {
    Occurs(s, m.openAt, Open) && Blank(s, m.openAt + |Open|, m.taskLabelAt) && TaskOk(s, m)
  }

  /** Where the engine stands after the opening marker: the piece of the pattern it tries
      next. */
  datatype Piece =
    | AfterOpen        // `\s*task:`
    | AfterTaskLabel   // `\s*([\s\S]+?)`, the task group's start
    | InTask           // the end of the lazy task group
    | AfterTask        // `\s*goal:`
    | AfterGoalLabel   // `\s*([\s\S]+?)`, the goal group's start
    | InGoal           // the end of the lazy goal group
    | AfterGoal        // `\s*\[\/ONE_THING_SELECTED\]`

  /** The position a piece starts from, given the positions found before it. */
  function PieceStart(m: Captures, at: Piece): int {
    match at
    case AfterOpen => m.openAt + |Open|
    case AfterTaskLabel => m.taskLabelAt + |TaskLabel|
    case InTask => m.taskEnd
    case AfterTask => m.taskEnd
    case AfterGoalLabel => m.goalLabelAt + |GoalLabel|
    case InGoal => m.goalEnd
    case AfterGoal => m.goalEnd
  }

  /** A lazy group's end is tried before what follows it, from the same position. */
  function PieceRank(at: Piece): nat {
    if at == InTask || at == InGoal then 1 else 0
  }

  /** What each piece needs: the `n` characters its star holds are white space, or the
      lazy group it ends is not empty. */
  predicate Ready(s: string, m: Captures, at: Piece, n: nat) {
    match at
    case InTask => m.taskStart < m.taskEnd <= |s|
    case InGoal => m.goalStart < m.goalEnd <= |s|
    case _ => 0 <= PieceStart(m, at) && Blank(s, PieceStart(m, at), PieceStart(m, at) + n)
  }

  /** The engine goes on with piece `at`, its star holding `n` characters (`n` is unused by
      the two lazy groups). */
  function Continue(s: string, m: Captures, at: Piece, n: nat): (r: Option<Captures>)
    requires Ready(s, m, at, n)
    decreases |s| - PieceStart(m, at), PieceRank(at), n, 1
  {
    match at
    case AfterOpen => TaskMarker(s, m, n)
    case AfterTaskLabel => TaskValue(s, m, n)
    case InTask => TaskText(s, m)
    case AfterTask => GoalMarker(s, m, n)
    case AfterGoalLabel => GoalValue(s, m, n)
    case InGoal => GoalText(s, m)
    case AfterGoal => CloseAfter(s, m, n)
  }

  /** `\s*\[\/ONE_THING_SELECTED\]` after the goal group, the star holding `n` characters. */
  function CloseAfter(s: string, m: Captures, n: nat): (r: Option<Captures>)
    requires Blank(s, m.goalEnd, m.goalEnd + n)
    decreases |s| - m.goalEnd, 0, n, 0
  {
    if Occurs(s, m.goalEnd + n, Close) then Some(m.(closeAt := m.goalEnd + n))
    else if n == 0 then None
    else CloseAfter(s, m, n - 1)
  }

  /** The lazy goal group, its end tried at `m.goalEnd` and then one character further each time. */
  function GoalText(s: string, m: Captures): (r: Option<Captures>)
    requires m.goalStart < m.goalEnd <= |s|
    decreases |s| - m.goalEnd, 1, 0, 0
  {
    var here := Continue(s, m, AfterGoal, SpaceRun(s, m.goalEnd));
    if here.Some? then here
    else if m.goalEnd == |s| then None
    else GoalText(s, m.(goalEnd := m.goalEnd + 1))
  }

  /** `\s*([\s\S]+?)…` after `goal:`, the star holding `n` characters. */
  function GoalValue(s: string, m: Captures, n: nat): (r: Option<Captures>)
    requires Blank(s, m.goalLabelAt + |GoalLabel|, m.goalLabelAt + |GoalLabel| + n)
    decreases |s| - (m.goalLabelAt + |GoalLabel|), 0, n, 0
  {
    var start := m.goalLabelAt + |GoalLabel| + n;
    var here := if start < |s| then Continue(s, m.(goalStart := start, goalEnd := start + 1), InGoal, 0) else None;
    if here.Some? then here
    else if n == 0 then None
    else GoalValue(s, m, n - 1)
  }

  /** `\s*goal:…` after the task group, the star holding `n` characters. */
  function GoalMarker(s: string, m: Captures, n: nat): (r: Option<Captures>)
    requires Blank(s, m.taskEnd, m.taskEnd + n)
    decreases |s| - m.taskEnd, 0, n, 0
  {
    var at := m.taskEnd + n;
    var here := if Occurs(s, at, GoalLabel) then Continue(s, m.(goalLabelAt := at), AfterGoalLabel, SpaceRun(s, at + |GoalLabel|)) else None;
    if here.Some? then here
    else if n == 0 then None
    else GoalMarker(s, m, n - 1)
  }

  /** The lazy task group, its end tried at `m.taskEnd` and then one character further each time. */
  function TaskText(s: string, m: Captures): (r: Option<Captures>)
    requires m.taskStart < m.taskEnd <= |s|
    decreases |s| - m.taskEnd, 1, 0, 0
  {
    var here := Continue(s, m, AfterTask, SpaceRun(s, m.taskEnd));
    if here.Some? then here
    else if m.taskEnd == |s| then None
    else TaskText(s, m.(taskEnd := m.taskEnd + 1))
  }

  /** `\s*([\s\S]+?)…` after `task:`, the star holding `n` characters. */
  function TaskValue(s: string, m: Captures, n: nat): (r: Option<Captures>)
    requires Blank(s, m.taskLabelAt + |TaskLabel|, m.taskLabelAt + |TaskLabel| + n)
    decreases |s| - (m.taskLabelAt + |TaskLabel|), 0, n, 0
  {
    var start := m.taskLabelAt + |TaskLabel| + n;
    var here := if start < |s| then Continue(s, m.(taskStart := start, taskEnd := start + 1), InTask, 0) else None;
    if here.Some? then here
    else if n == 0 then None
    else TaskValue(s, m, n - 1)
  }

  /** `\s*task:…` after the opening marker, the star holding `n` characters. */
  function TaskMarker(s: string, m: Captures, n: nat): (r: Option<Captures>)
    requires Blank(s, m.openAt + |Open|, m.openAt + |Open| + n)
    decreases |s| - (m.openAt + |Open|), 0, n, 0
  {
    var at := m.openAt + |Open| + n;
    var here := if Occurs(s, at, TaskLabel) then Continue(s, m.(taskLabelAt := at), AfterTaskLabel, SpaceRun(s, at + |TaskLabel|)) else None;
    if here.Some? then here
    else if n == 0 then None
    else TaskMarker(s, m, n - 1)
  }

  /** The whole pattern tried at start position `p`. */
  function MatchAt(s: string, p: nat): (r: Option<Captures>)
  {
    if Occurs(s, p, Open) then
      TaskMarker(s, Captures(p, 0, 0, 0, 0, 0, 0, 0), SpaceRun(s, p + |Open|))
    else None
  }

  /** The leftmost start position from `p` on at which the pattern matches. */
  function MatchFrom(s: string, p: nat): (r: Option<Captures>)
    requires p <= |s|
    decreases |s| - p
  {
    var here := MatchAt(s, p);
    if here.Some? then here
    else if p == |s| then None
    else MatchFrom(s, p + 1)
  }

  // What each stage finds is a match of its piece of the pattern, and leaves the
  // positions found before it as they were.

  /** `\s*\[\/ONE_THING_SELECTED\]` found within the star's reach. */
  lemma {:induction false} CloseAfterSound(s: string, m: Captures, n: nat)
    requires Blank(s, m.goalEnd, m.goalEnd + n)
    ensures var r := CloseAfter(s, m, n);
      r.Some? ==> r.value == m.(closeAt := r.value.closeAt) && CloseOk(s, r.value) && r.value.closeAt <= m.goalEnd + n
    decreases n
  {
    if !Occurs(s, m.goalEnd + n, Close) && n > 0 {
      CloseAfterSound(s, m, n - 1);
    }
  }

  /** A non-empty goal group ending at or after `m.goalEnd`, then the closing marker. */
  lemma {:induction false} GoalTextSound(s: string, m: Captures)
    requires m.goalStart < m.goalEnd <= |s|
    ensures var r := GoalText(s, m);
      r.Some? ==> && r.value == m.(goalEnd := r.value.goalEnd, closeAt := r.value.closeAt)
                  && m.goalEnd <= r.value.goalEnd && GoalValueOk(s, r.value)
    decreases |s| - m.goalEnd
  {
    CloseAfterSound(s, m, SpaceRun(s, m.goalEnd));
    if CloseAfter(s, m, SpaceRun(s, m.goalEnd)).None? && m.goalEnd < |s| {
      GoalTextSound(s, m.(goalEnd := m.goalEnd + 1));
    }
  }

  /** White space after `goal:`, then the goal group and the closing marker. */
  lemma {:induction false} GoalValueSound(s: string, m: Captures, n: nat)
    requires Blank(s, m.goalLabelAt + |GoalLabel|, m.goalLabelAt + |GoalLabel| + n)
    ensures var r := GoalValue(s, m, n);
      r.Some? ==> && r.value == m.(goalStart := r.value.goalStart, goalEnd := r.value.goalEnd, closeAt := r.value.closeAt)
                  && Blank(s, m.goalLabelAt + |GoalLabel|, r.value.goalStart) && GoalValueOk(s, r.value)
    decreases n
  {
    var start := m.goalLabelAt + |GoalLabel| + n;
    if start < |s| {
      GoalTextSound(s, m.(goalStart := start, goalEnd := start + 1));
    }
    if n > 0 {
      GoalValueSound(s, m, n - 1);
    }
  }

  /** White space after the task group, then `goal:` and the rest. */
  lemma {:induction false} GoalMarkerSound(s: string, m: Captures, n: nat)
    requires Blank(s, m.taskEnd, m.taskEnd + n)
    ensures var r := GoalMarker(s, m, n);
      r.Some? ==> && r.value == m.(goalLabelAt := r.value.goalLabelAt, goalStart := r.value.goalStart,
                                   goalEnd := r.value.goalEnd, closeAt := r.value.closeAt)
                  && Blank(s, m.taskEnd, r.value.goalLabelAt) && GoalOk(s, r.value)
    decreases n
  {
    var at := m.taskEnd + n;
    if Occurs(s, at, GoalLabel) {
      GoalValueSound(s, m.(goalLabelAt := at), SpaceRun(s, at + |GoalLabel|));
    }
    if n > 0 {
      GoalMarkerSound(s, m, n - 1);
    }
  }

  /** A non-empty task group ending at or after `m.taskEnd`, then the goal part. */
  lemma {:induction false} TaskTextSound(s: string, m: Captures)
    requires m.taskStart < m.taskEnd <= |s|
    ensures var r := TaskText(s, m);
      r.Some? ==> && r.value == m.(taskEnd := r.value.taskEnd, goalLabelAt := r.value.goalLabelAt,
                                   goalStart := r.value.goalStart, goalEnd := r.value.goalEnd, closeAt := r.value.closeAt)
                  && m.taskEnd <= r.value.taskEnd && TaskValueOk(s, r.value)
    decreases |s| - m.taskEnd
  {
    GoalMarkerSound(s, m, SpaceRun(s, m.taskEnd));
    if GoalMarker(s, m, SpaceRun(s, m.taskEnd)).None? && m.taskEnd < |s| {
      TaskTextSound(s, m.(taskEnd := m.taskEnd + 1));
    }
  }

  /** White space after `task:`, then the task group and the rest. */
  lemma {:induction false} TaskValueSound(s: string, m: Captures, n: nat)
    requires Blank(s, m.taskLabelAt + |TaskLabel|, m.taskLabelAt + |TaskLabel| + n)
    ensures var r := TaskValue(s, m, n);
      r.Some? ==> && r.value.openAt == m.openAt && r.value.taskLabelAt == m.taskLabelAt
                  && Blank(s, m.taskLabelAt + |TaskLabel|, r.value.taskStart) && TaskValueOk(s, r.value)
    decreases n
  {
    var start := m.taskLabelAt + |TaskLabel| + n;
    if start < |s| {
      TaskTextSound(s, m.(taskStart := start, taskEnd := start + 1));
    }
    if n > 0 {
      TaskValueSound(s, m, n - 1);
    }
  }

  /** White space after the opening marker, then `task:` and the rest. */
  lemma {:induction false} TaskMarkerSound(s: string, m: Captures, n: nat)
    requires Blank(s, m.openAt + |Open|, m.openAt + |Open| + n)
    ensures var r := TaskMarker(s, m, n);
      r.Some? ==> r.value.openAt == m.openAt && Blank(s, m.openAt + |Open|, r.value.taskLabelAt) && TaskOk(s, r.value)
    decreases n
  {
    var at := m.openAt + |Open| + n;
    if Occurs(s, at, TaskLabel) {
      TaskValueSound(s, m.(taskLabelAt := at), SpaceRun(s, at + |TaskLabel|));
    }
    if n > 0 {
      TaskMarkerSound(s, m, n - 1);
    }
  }

  /** A match found at a start position is a match of the whole pattern starting there. */
  lemma MatchAtSound(s: string, p: nat)
    ensures MatchAt(s, p).Some? ==> MatchAt(s, p).value.openAt == p && IsMatch(s, MatchAt(s, p).value)
  {
    if Occurs(s, p, Open) {
      TaskMarkerSound(s, Captures(p, 0, 0, 0, 0, 0, 0, 0), SpaceRun(s, p + |Open|));
    }
  }

  /** A match found at a start position records that position as its start. */
  lemma MatchAtOpens(s: string, p: nat)
    ensures MatchAt(s, p).Some? ==> MatchAt(s, p).value.openAt == p
  {
    MatchAtSound(s, p);
  }

  /** The search from `p` returns the match at the leftmost start position that has one,
      and `None` only when no start position from `p` on has one. */
  lemma {:induction false} MatchFromSound(s: string, p: nat)
    requires p <= |s|
    ensures var r := MatchFrom(s, p);
      && (r.Some? ==> p <= r.value.openAt <= |s| && MatchAt(s, r.value.openAt) == r)
      && (r.Some? ==> forall x :: p <= x < r.value.openAt ==> MatchAt(s, x).None?)
      && (r.None? ==> forall x :: p <= x <= |s| ==> MatchAt(s, x).None?)
    decreases |s| - p
  {
    MatchAtOpens(s, p);
    if MatchAt(s, p).None? && p < |s| {
      MatchFromSound(s, p + 1);
    }
  }

  // Completeness: when the rest of some match `t` can follow the positions found so
  // far, the stage finds a match (not necessarily `t`, since the engine's order decides).

  /** A closing marker within the star's reach after the goal group is found. */
  lemma {:induction false} CloseAfterComplete(s: string, m: Captures, n: nat, t: Captures)
    requires Blank(s, m.goalEnd, m.goalEnd + n)
    requires t.goalEnd == m.goalEnd && CloseOk(s, t) && t.closeAt <= m.goalEnd + n
    ensures CloseAfter(s, m, n).Some?
    decreases n
  {
    if !Occurs(s, m.goalEnd + n, Close) {
      CloseAfterComplete(s, m, n - 1, t);
    }
  }

  /** A goal group of `t` ending at or after the end tried first is found. */
  lemma {:induction false} GoalTextComplete(s: string, m: Captures, t: Captures)
    requires m.goalStart < m.goalEnd <= t.goalEnd && CloseOk(s, t)
    ensures GoalText(s, m).Some?
    decreases t.goalEnd - m.goalEnd
  {
    var n := SpaceRun(s, m.goalEnd);
    if m.goalEnd == t.goalEnd {
      SpaceRunCovers(s, t.goalEnd, t.closeAt);
      CloseAfterComplete(s, m, n, t);
    } else if CloseAfter(s, m, n).None? {
      GoalTextComplete(s, m.(goalEnd := m.goalEnd + 1), t);
    }
  }

  /** A goal group of `t` starting within the star's reach after `goal:` is found. */
  lemma {:induction false} GoalValueComplete(s: string, m: Captures, n: nat, t: Captures)
    requires Blank(s, m.goalLabelAt + |GoalLabel|, m.goalLabelAt + |GoalLabel| + n)
    requires m.goalLabelAt + |GoalLabel| <= t.goalStart <= m.goalLabelAt + |GoalLabel| + n
    requires GoalValueOk(s, t)
    ensures GoalValue(s, m, n).Some?
    decreases n
  {
    var start := m.goalLabelAt + |GoalLabel| + n;
    if start == t.goalStart {
      GoalTextComplete(s, m.(goalStart := start, goalEnd := start + 1), t);
    } else if GoalValue(s, m, n).None? {
      GoalValueComplete(s, m, n - 1, t);
    }
  }

  /** The `goal:` label of `t` within the star's reach after the task group is found. */
  lemma {:induction false} GoalMarkerComplete(s: string, m: Captures, n: nat, t: Captures)
    requires Blank(s, m.taskEnd, m.taskEnd + n)
    requires m.taskEnd <= t.goalLabelAt <= m.taskEnd + n && GoalOk(s, t)
    ensures GoalMarker(s, m, n).Some?
    decreases n
  {
    var at := m.taskEnd + n;
    if at == t.goalLabelAt {
      SpaceRunCovers(s, at + |GoalLabel|, t.goalStart);
      GoalValueComplete(s, m.(goalLabelAt := at), SpaceRun(s, at + |GoalLabel|), t);
    } else if GoalMarker(s, m, n).None? {
      GoalMarkerComplete(s, m, n - 1, t);
    }
  }

  /** A task group of `t` ending at or after the end tried first is found. */
  lemma {:induction false} TaskTextComplete(s: string, m: Captures, t: Captures)
    requires m.taskStart < m.taskEnd <= t.taskEnd
    requires Blank(s, t.taskEnd, t.goalLabelAt) && GoalOk(s, t)
    ensures TaskText(s, m).Some?
    decreases t.taskEnd - m.taskEnd
  {
    var n := SpaceRun(s, m.taskEnd);
    if m.taskEnd == t.taskEnd {
      SpaceRunCovers(s, t.taskEnd, t.goalLabelAt);
      GoalMarkerComplete(s, m, n, t);
    } else if GoalMarker(s, m, n).None? {
      TaskTextComplete(s, m.(taskEnd := m.taskEnd + 1), t);
    }
  }

  /** A task group of `t` starting within the star's reach after `task:` is found. */
  lemma {:induction false} TaskValueComplete(s: string, m: Captures, n: nat, t: Captures)
    requires Blank(s, m.taskLabelAt + |TaskLabel|, m.taskLabelAt + |TaskLabel| + n)
    requires m.taskLabelAt + |TaskLabel| <= t.taskStart <= m.taskLabelAt + |TaskLabel| + n
    requires TaskValueOk(s, t)
    ensures TaskValue(s, m, n).Some?
    decreases n
  {
    var start := m.taskLabelAt + |TaskLabel| + n;
    if start == t.taskStart {
      TaskTextComplete(s, m.(taskStart := start, taskEnd := start + 1), t);
    } else if TaskValue(s, m, n).None? {
      TaskValueComplete(s, m, n - 1, t);
    }
  }

  /** The `task:` label of `t` within the star's reach after the opening marker is found. */
  lemma {:induction false} TaskMarkerComplete(s: string, m: Captures, n: nat, t: Captures)
    requires Blank(s, m.openAt + |Open|, m.openAt + |Open| + n)
    requires m.openAt + |Open| <= t.taskLabelAt <= m.openAt + |Open| + n && TaskOk(s, t)
    ensures TaskMarker(s, m, n).Some?
    decreases n
  {
    var at := m.openAt + |Open| + n;
    if at == t.taskLabelAt {
      SpaceRunCovers(s, at + |TaskLabel|, t.taskStart);
      TaskValueComplete(s, m.(taskLabelAt := at), SpaceRun(s, at + |TaskLabel|), t);
    } else if TaskMarker(s, m, n).None? {
      TaskMarkerComplete(s, m, n - 1, t);
    }
  }

  /** Where the pattern matches, the engine finds a match at that start position. */
  lemma MatchAtComplete(s: string, t: Captures)
    requires IsMatch(s, t)
    ensures MatchAt(s, t.openAt).Some?
  {
    SpaceRunCovers(s, t.openAt + |Open|, t.taskLabelAt);
    TaskMarkerComplete(s, Captures(t.openAt, 0, 0, 0, 0, 0, 0, 0), SpaceRun(s, t.openAt + |Open|), t);
  }

  /** The two groups of a match, trimmed. */
  function Selected(s: string, m: Captures): Selection
    requires IsMatch(s, m)
  {
    Selection(Trim(s[m.taskStart..m.taskEnd]), Trim(s[m.goalStart..m.goalEnd]))
  }

  /** `parseOneThingSelection`: the trimmed groups of the leftmost match, or `None`
      (never an exception) when the pattern does not match. */
  function Parse(text: string): (r: Option<Selection>)
    ensures r.Some? ==> IsTrimmed(r.value.taskTitle) && IsTrimmed(r.value.goal)
    ensures r.Some? ==> exists m :: IsMatch(text, m) && r.value == Selected(text, m)
    ensures r.None? ==> forall p :: 0 <= p <= |text| ==> MatchAt(text, p).None?
  {
    MatchFromSound(text, 0);
    match MatchFrom(text, 0)
    case Some(m) => MatchAtSound(text, m.openAt); Some(Selected(text, m))
    case None => None
  }

  /** The parser finds a selection exactly when some match of the pattern exists. */
  lemma ParseComplete(text: string)
    ensures Parse(text).Some? <==> exists m :: IsMatch(text, m)
  {
    if exists m :: IsMatch(text, m) {
      var m :| IsMatch(text, m);
      MatchAtComplete(text, m);
    }
  }

  /** An opening marker with a closing marker somewhere after it. */
  ghost predicate OpenThenClose(s: string) {
    exists i, j :: Occurs(s, i, Open) && i + |Open| <= j && Occurs(s, j, Close)
  }

  /** The parser finds nothing in a text without an opening marker followed by a closing one. */
  lemma ParseNeedsMarkers(text: string)
    ensures !OpenThenClose(text) ==> Parse(text).None?
  {
    if Parse(text).Some? {
      var m :| IsMatch(text, m) && Parse(text).value == Selected(text, m);
      assert m.openAt + |Open| <= m.closeAt;
    }
  }

  // Round trip: a block written in the prompt's format, after a prefix without an
  // opening marker, parses back to the title and goal written into it.

  /** No occurrence of `lit` starts inside `s[lo..hi]` when that slice does not contain
      `lit` and the character at `hi` cannot continue it. */
  lemma NoneStartsInside(s: string, lo: nat, hi: nat, lit: string, k: nat)
    requires lo <= k < hi < |s|
    requires !Contains(s[lo..hi], lit)
    requires forall j :: 1 <= j < |lit| ==> lit[j] != s[hi]
    ensures !Occurs(s, k, lit)
  {
    if k + |lit| <= hi {
      if Occurs(s, k, lit) {
        OccursWithin(s, lo, hi, k, lit);
      }
    } else {
      NotAcross(s, k, hi, lit);
    }
  }

  /** With no closing marker at any end the star may take, `\s*` then the marker fails
      after the goal group ending at `e`. */
  lemma {:induction false} CloseAfterMisses(s: string, m: Captures, e: nat, n: nat)
    requires Blank(s, e, e + n)
    requires forall k :: e <= k <= e + n ==> !Occurs(s, k, Close)
    ensures CloseAfter(s, m.(goalEnd := e), n).None?
  {
    if n > 0 {
      CloseAfterMisses(s, m, e, n - 1);
    }
  }

  /** With no `goal:` label at any end the star may take, `\s*goal:…` fails after the task
      group ending at `e`. */
  lemma {:induction false} GoalMarkerMisses(s: string, m: Captures, e: nat, n: nat)
    requires Blank(s, e, e + n)
    requires forall k :: e <= k <= e + n ==> !Occurs(s, k, GoalLabel)
    ensures GoalMarker(s, m.(taskEnd := e), n).None?
  {
    if n > 0 {
      GoalMarkerMisses(s, m, e, n - 1);
    }
  }

  /** Where the markers and the labels of a block stand in the text from the block on. */
  lemma BlockMarkers(prefix: string, title: string, goal: string)
    ensures var s := prefix + Block(title, goal);
      var p := |prefix|;
      var te := p + 27 + |title|;
      var ge := te + 7 + |goal|;
      && |s| == ge + 1 + |Close| && s[..p] == prefix
      && Occurs(s, p, Open) && Occurs(s, p + 21, TaskLabel)
      && Occurs(s, te + 1, GoalLabel) && Occurs(s, ge + 1, Close)
  {
    var b := Block(title, goal);
    var te := 27 + |title|;
    var ge := te + 7 + |goal|;
    ShapeMarkers(Open, title, goal, Close);
    OccursShift(prefix, b, 0, Open);
    OccursShift(prefix, b, 21, TaskLabel);
    OccursShift(prefix, b, te + 1, GoalLabel);
    OccursShift(prefix, b, ge + 1, Close);
    TailOf(prefix, b);
  }

  /** Where the line breaks, the spaces after the labels, the title and the goal of a
      block stand in the text from the block on. */
  lemma BlockText(prefix: string, title: string, goal: string)
    ensures var s := prefix + Block(title, goal);
      var p := |prefix|;
      var te := p + 27 + |title|;
      var ge := te + 7 + |goal|;
      && ge < |s| && s[p + 20] == '\n' && s[p + 26] == ' ' && s[p + 27..te] == title
      && s[te] == '\n' && s[te + 6] == ' ' && s[te + 7..ge] == goal && s[ge] == '\n'
  {
    var b := Block(title, goal);
    var p := |prefix|;
    var te := 27 + |title|;
    var ge := te + 7 + |goal|;
    ShapeText(Open, title, goal, Close);
    var s := prefix + b;
    assert s[p + 27..p + te] == b[27..te];
    assert s[p + te + 7..p + ge] == b[te + 7..ge];
  }

  /** The markers and labels of a block whose markers are `o` and `c`. */
  lemma ShapeMarkers(o: string, title: string, goal: string, c: string)
    ensures var b := o + "\ntask: " + title + "\ngoal: " + goal + "\n" + c;
      var te := |o| + 7 + |title|;
      var ge := te + 7 + |goal|;
      && |b| == ge + 1 + |c|
      && Occurs(b, 0, o) && Occurs(b, |o| + 1, TaskLabel)
      && Occurs(b, te + 1, GoalLabel) && Occurs(b, ge + 1, c)
  {
    var t, g, nl := "\ntask: ", "\ngoal: ", "\n";
    var a1 := o + t;
    var a2 := a1 + title;
    var a3 := a2 + g;
    var a4 := a3 + goal;
    var a5 := a4 + nl;
    OccursSelf(o);
    OccursExtend(o, t, 0, o);
    assert t[1..6] == TaskLabel;
    SliceOccurs(t, 1, TaskLabel);
    OccursShift(o, t, 1, TaskLabel);
    OccursExtend(a1, title, 0, o);
    OccursExtend(a1, title, |o| + 1, TaskLabel);
    OccursExtend(a2, g, 0, o);
    OccursExtend(a2, g, |o| + 1, TaskLabel);
    assert g[1..6] == GoalLabel;
    SliceOccurs(g, 1, GoalLabel);
    OccursShift(a2, g, 1, GoalLabel);
    OccursExtend(a3, goal, 0, o);
    OccursExtend(a3, goal, |o| + 1, TaskLabel);
    OccursExtend(a3, goal, |a2| + 1, GoalLabel);
    OccursExtend(a4, nl, 0, o);
    OccursExtend(a4, nl, |o| + 1, TaskLabel);
    OccursExtend(a4, nl, |a2| + 1, GoalLabel);
    OccursExtend(a5, c, 0, o);
    OccursExtend(a5, c, |o| + 1, TaskLabel);
    OccursExtend(a5, c, |a2| + 1, GoalLabel);
    OccursSelf(c);
    OccursShift(a5, c, 0, c);
  }

  /** The line breaks, spaces, title and goal of a block whose markers are `o` and `c`. */
  lemma ShapeText(o: string, title: string, goal: string, c: string)
    ensures var b := o + "\ntask: " + title + "\ngoal: " + goal + "\n" + c;
      var te := |o| + 7 + |title|;
      var ge := te + 7 + |goal|;
      && ge < |b| && b[|o|] == '\n' && b[|o| + 6] == ' ' && b[|o| + 7..te] == title
      && b[te] == '\n' && b[te + 6] == ' ' && b[te + 7..ge] == goal && b[ge] == '\n'
  {
    var a2 := o + "\ntask: " + title;
    var a4 := a2 + "\ngoal: " + goal;
    var b := a4 + "\n" + c;
    TailOf(o + "\ntask: ", title);
    TailOf(a2 + "\ngoal: ", goal);
    assert b[|o| + 7..|a2|] == a2[|o| + 7..];
    assert b[|a2| + 7..|a4|] == a4[|a2| + 7..];
  }

  /** The part of `x + y` after `x`. */
  lemma TailOf(x: string, y: string)
    ensures (x + y)[|x|..] == y && (x + y)[..|x|] == x
  {
  }

  /** The title group's text `s[ts..te]`: not empty, no white space at either end and no
      `goal:` inside. */
  predicate TitleSpan(s: string, ts: nat, te: nat) {
    ts < te <= |s| && !IsSpace(s[ts]) && !IsSpace(s[te - 1]) && !Contains(s[ts..te], GoalLabel)
  }

  /** The goal group's text `s[gs..ge]`: not empty, no white space at either end and no
      closing marker inside. */
  predicate GoalSpan(s: string, gs: nat, ge: nat) {
    gs < ge <= |s| && !IsSpace(s[gs]) && !IsSpace(s[ge - 1]) && !Contains(s[gs..ge], Close)
  }

  /** What follows a title ending at `te`: a line break, `goal: `, the goal's text ending at
      `ge`, a line break and the closing marker. */
  predicate GoalLinesAt(s: string, te: nat, ge: nat) {
    && te + 7 < ge < |s| && s[te] == '\n' && Occurs(s, te + 1, GoalLabel) && s[te + 6] == ' '
    && GoalSpan(s, te + 7, ge) && s[ge] == '\n' && Occurs(s, ge + 1, Close)
  }

  /** A whole block at `p`, its title ending at `te` and its goal at `ge`. */
  predicate BlockLaidOut(s: string, p: nat, te: nat, ge: nat) {
    && Occurs(s, p, Open) && p + 27 < te < |s| && s[p + 20] == '\n' && Occurs(s, p + 21, TaskLabel)
    && s[p + 26] == ' ' && TitleSpan(s, p + 27, te) && GoalLinesAt(s, te, ge)
  }

  /** The captures of a block laid out at `p`. */
  function BlockCaptures(p: nat, te: nat, ge: nat): Captures {
    Captures(p, p + 21, p + 27, te, te + 1, te + 7, ge, ge + 1)
  }

  // The goal group.

  /** When `\s*\[\/ONE_THING_SELECTED\]` fails after `e`, the lazy goal group takes one
      more character. */
  lemma GoalTextGrows(s: string, m: Captures, e: nat)
    requires m.goalStart < e < |s|
    requires CloseAfter(s, m.(goalEnd := e), SpaceRun(s, e)).None?
    ensures GoalText(s, m.(goalEnd := e)) == GoalText(s, m.(goalEnd := e + 1))
  {
    var me := m.(goalEnd := e);
    assert me.(goalEnd := me.goalEnd + 1) == m.(goalEnd := e + 1);
  }

  /** When `\s*\[\/ONE_THING_SELECTED\]` matches after `e`, the lazy goal group stops there. */
  lemma GoalTextStops(s: string, m: Captures, e: nat)
    requires m.goalStart < e <= |s|
    requires CloseAfter(s, m.(goalEnd := e), SpaceRun(s, e)).Some?
    ensures GoalText(s, m.(goalEnd := e)) == CloseAfter(s, m.(goalEnd := e), SpaceRun(s, e))
  {
  }

  /** Inside the goal's text no closing marker follows the white space after `e`. */
  lemma NoCloseInGoal(s: string, m: Captures, gs: nat, ge: nat, e: nat)
    requires gs < e < ge < |s| && GoalSpan(s, gs, ge) && s[ge] == '\n'
    ensures CloseAfter(s, m.(goalEnd := e), SpaceRun(s, e)).None?
  {
    var n := SpaceRun(s, e);
    if e + n > ge - 1 {
      BlankAt(s, e, e + n, ge - 1);
    }
    forall k | e <= k <= e + n
      ensures !Occurs(s, k, Close)
    {
      NoneStartsInside(s, gs, ge, Close, k);
    }
    CloseAfterMisses(s, m, e, n);
  }

  /** The lazy goal group, started inside the goal's text, runs to its end. */
  lemma {:induction false} GoalTextScan(s: string, m: Captures, gs: nat, ge: nat, e: nat)
    requires m.goalStart == gs && gs < e <= ge < |s| && GoalSpan(s, gs, ge) && s[ge] == '\n'
    ensures GoalText(s, m.(goalEnd := e)) == GoalText(s, m.(goalEnd := ge))
    decreases ge - e
  {
    if e < ge {
      NoCloseInGoal(s, m, gs, ge, e);
      GoalTextGrows(s, m, e);
      GoalTextScan(s, m, gs, ge, e + 1);
    }
  }

  /** A line break then the closing marker: `\s*` takes the line break and the marker matches. */
  lemma CloseAfterBreak(s: string, m: Captures, ge: nat)
    requires ge < |s| && s[ge] == '\n' && Occurs(s, ge + 1, Close)
    ensures SpaceRun(s, ge) == 1
    ensures CloseAfter(s, m.(goalEnd := ge), 1) == Some(m.(goalEnd := ge, closeAt := ge + 1))
  {
    assert Close[0] == '[';
    assert s[ge + 1] == '[';
    assert SpaceRun(s, ge + 1) == 0;
  }

  /** At the end of the goal's text, the line break and the closing marker complete the match. */
  lemma GoalTextAtEnd(s: string, m: Captures, ge: nat)
    requires m.goalStart < ge < |s| && s[ge] == '\n' && Occurs(s, ge + 1, Close)
    ensures GoalText(s, m.(goalEnd := ge)) == Some(m.(goalEnd := ge, closeAt := ge + 1))
  {
    CloseAfterBreak(s, m, ge);
    GoalTextStops(s, m, ge);
  }

  /** With `n` characters of white space after `goal:` and a goal group `mg` starting
      there that matches, `\s*([\s\S]+?)…` matches with that star. */
  lemma GoalValueStops(s: string, m: Captures, n: nat, mg: Captures)
    requires Blank(s, m.goalLabelAt + |GoalLabel|, m.goalLabelAt + |GoalLabel| + n)
    requires mg.goalStart == m.goalLabelAt + |GoalLabel| + n < |s|
    requires mg == m.(goalStart := mg.goalStart, goalEnd := mg.goalStart + 1)
    requires GoalText(s, mg).Some?
    ensures GoalValue(s, m, n) == GoalText(s, mg)
  {
    var start := m.goalLabelAt + |GoalLabel| + n;
    assert m.(goalStart := start, goalEnd := start + 1) == mg;
  }

  /** After `goal:` at `te + 1`: one space, then the goal's text, a line break and the
      closing marker. */
  lemma GoalValueFinds(s: string, m: Captures, te: nat, ge: nat)
    requires GoalLinesAt(s, te, ge)
    ensures SpaceRun(s, te + 6) == 1
    ensures GoalValue(s, m.(goalLabelAt := te + 1), 1)
         == Some(m.(goalLabelAt := te + 1, goalStart := te + 7, goalEnd := ge, closeAt := ge + 1))
  {
    assert SpaceRun(s, te + 6) == 1;
    var mg := m.(goalLabelAt := te + 1, goalStart := te + 7);
    GoalTextScan(s, mg, te + 7, ge, te + 8);
    GoalTextAtEnd(s, mg, ge);
    assert |GoalLabel| == 5;
    GoalValueStops(s, m.(goalLabelAt := te + 1), 1, mg.(goalEnd := te + 8));
  }

  // The task group.

  /** When `\s*goal:…` fails after `e`, the lazy task group takes one more character. */
  lemma TaskTextGrows(s: string, m: Captures, e: nat)
    requires m.taskStart < e < |s|
    requires GoalMarker(s, m.(taskEnd := e), SpaceRun(s, e)).None?
    ensures TaskText(s, m.(taskEnd := e)) == TaskText(s, m.(taskEnd := e + 1))
  {
    var me := m.(taskEnd := e);
    assert me.(taskEnd := me.taskEnd + 1) == m.(taskEnd := e + 1);
  }

  /** When `\s*goal:…` matches after `e`, the lazy task group stops there. */
  lemma TaskTextStops(s: string, m: Captures, e: nat)
    requires m.taskStart < e <= |s|
    requires GoalMarker(s, m.(taskEnd := e), SpaceRun(s, e)).Some?
    ensures TaskText(s, m.(taskEnd := e)) == GoalMarker(s, m.(taskEnd := e), SpaceRun(s, e))
  {
  }

  /** Inside the title's text no `goal:` label follows the white space after `e`. */
  lemma NoGoalLabelInTitle(s: string, m: Captures, ts: nat, te: nat, e: nat)
    requires ts < e < te < |s| && TitleSpan(s, ts, te) && s[te] == '\n'
    ensures GoalMarker(s, m.(taskEnd := e), SpaceRun(s, e)).None?
  {
    var n := SpaceRun(s, e);
    if e + n > te - 1 {
      BlankAt(s, e, e + n, te - 1);
    }
    forall k | e <= k <= e + n
      ensures !Occurs(s, k, GoalLabel)
    {
      NoneStartsInside(s, ts, te, GoalLabel, k);
    }
    GoalMarkerMisses(s, m, e, n);
  }

  /** The lazy task group, started inside the title's text, runs to its end. */
  lemma {:induction false} TaskTextScan(s: string, m: Captures, ts: nat, te: nat, e: nat)
    requires m.taskStart == ts && ts < e <= te < |s| && TitleSpan(s, ts, te) && s[te] == '\n'
    ensures TaskText(s, m.(taskEnd := e)) == TaskText(s, m.(taskEnd := te))
    decreases te - e
  {
    if e < te {
      NoGoalLabelInTitle(s, m, ts, te, e);
      TaskTextGrows(s, m, e);
      TaskTextScan(s, m, ts, te, e + 1);
    }
  }

  /** With `n` characters of white space after the task group, `goal:` and a goal value
      that matches, `\s*goal:…` matches with that star. */
  lemma GoalMarkerStops(s: string, m: Captures, n: nat, mg: Captures)
    requires Blank(s, m.taskEnd, m.taskEnd + n) && Occurs(s, m.taskEnd + n, GoalLabel)
    requires mg == m.(goalLabelAt := m.taskEnd + n)
    requires GoalValue(s, mg, SpaceRun(s, m.taskEnd + n + |GoalLabel|)).Some?
    ensures GoalMarker(s, m, n) == GoalValue(s, mg, SpaceRun(s, m.taskEnd + n + |GoalLabel|))
  {
  }

  /** After a title ending at `te`, the goal lines match. */
  lemma GoalMarkerFinds(s: string, m: Captures, te: nat, ge: nat)
    requires m.taskEnd == te && GoalLinesAt(s, te, ge)
    ensures SpaceRun(s, te) == 1
    ensures GoalMarker(s, m, 1)
         == Some(m.(goalLabelAt := te + 1, goalStart := te + 7, goalEnd := ge, closeAt := ge + 1))
  {
    GoalValueFinds(s, m, te, ge);
    assert GoalLabel[0] == 'g';
    assert s[te + 1] == 'g';
    assert SpaceRun(s, te) == 1;
    assert |GoalLabel| == 5;
    GoalMarkerStops(s, m, 1, m.(goalLabelAt := te + 1));
  }

  /** At the end of the title, the goal lines complete the match. */
  lemma TaskTextAtEnd(s: string, m: Captures, te: nat, ge: nat)
    requires m.taskStart < te && GoalLinesAt(s, te, ge)
    ensures TaskText(s, m.(taskEnd := te))
         == Some(m.(taskEnd := te, goalLabelAt := te + 1, goalStart := te + 7, goalEnd := ge, closeAt := ge + 1))
  {
    GoalMarkerFinds(s, m.(taskEnd := te), te, ge);
    TaskTextStops(s, m, te);
  }

  /** With `n` characters of white space after `task:` and a task group `mt` starting
      there that matches, `\s*([\s\S]+?)…` matches with that star. */
  lemma TaskValueStops(s: string, m: Captures, n: nat, mt: Captures)
    requires Blank(s, m.taskLabelAt + |TaskLabel|, m.taskLabelAt + |TaskLabel| + n)
    requires mt.taskStart == m.taskLabelAt + |TaskLabel| + n < |s|
    requires mt == m.(taskStart := mt.taskStart, taskEnd := mt.taskStart + 1)
    requires TaskText(s, mt).Some?
    ensures TaskValue(s, m, n) == TaskText(s, mt)
  {
    var start := m.taskLabelAt + |TaskLabel| + n;
    assert m.(taskStart := start, taskEnd := start + 1) == mt;
  }

  /** After `task:` at `p + 21`: one space, then the title and the goal lines. */
  lemma TaskValueFinds(s: string, p: nat, te: nat, ge: nat)
    requires p + 27 < te < |s| && s[p + 26] == ' ' && TitleSpan(s, p + 27, te) && GoalLinesAt(s, te, ge)
    ensures SpaceRun(s, p + 26) == 1
    ensures TaskValue(s, Captures(p, p + 21, 0, 0, 0, 0, 0, 0), 1) == Some(BlockCaptures(p, te, ge))
  {
    assert SpaceRun(s, p + 26) == 1;
    var mt := Captures(p, p + 21, p + 27, 0, 0, 0, 0, 0);
    TaskTextScan(s, mt, p + 27, te, p + 28);
    TaskTextAtEnd(s, mt, te, ge);
    assert |TaskLabel| == 5;
    TaskValueStops(s, Captures(p, p + 21, 0, 0, 0, 0, 0, 0), 1, mt.(taskEnd := p + 28));
  }

  /** At a block laid out at `p` the whole pattern matches, capturing its title and goal. */
  lemma BlockMatch(s: string, p: nat, te: nat, ge: nat)
    requires BlockLaidOut(s, p, te, ge)
    ensures MatchAt(s, p) == Some(BlockCaptures(p, te, ge))
  {
    TaskValueFinds(s, p, te, ge);
    assert TaskLabel[0] == 't';
    assert s[p + 21] == 't';
    assert SpaceRun(s, p + 20) == 1;
    assert |Open| == 20 && |TaskLabel| == 5;
    assert TaskMarker(s, Captures(p, 0, 0, 0, 0, 0, 0, 0), 1) == Some(BlockCaptures(p, te, ge));
  }

  /** Start positions at which nothing matches are skipped. */
  lemma {:induction false} MatchFromSkips(s: string, q: nat, p: nat)
    requires q <= p <= |s|
    requires forall x :: q <= x < p ==> MatchAt(s, x).None?
    ensures MatchFrom(s, q) == MatchFrom(s, p)
    decreases p - q
  {
    if q < p {
      MatchFromSkips(s, q + 1, p);
    }
  }

  /** A block for `title` and `goal` stands in `s` from `p` to the end: the markers, the
      labels, the line breaks and spaces around them, the title and the goal. */
  predicate BlockEndsAt(s: string, p: nat, title: string, goal: string) {
    var te := p + 27 + |title|;
    var ge := te + 7 + |goal|;
    && |s| == ge + 1 + |Close|
    && Occurs(s, p, Open) && s[p + 20] == '\n' && Occurs(s, p + 21, TaskLabel) && s[p + 26] == ' '
    && s[p + 27..te] == title && s[te] == '\n' && Occurs(s, te + 1, GoalLabel) && s[te + 6] == ' '
    && s[te + 7..ge] == goal && s[ge] == '\n' && Occurs(s, ge + 1, Close)
  }

  /** The block of `prefix + Block(title, goal)` ends the text, after the prefix. */
  lemma BlockEnds(prefix: string, title: string, goal: string)
    ensures var s := prefix + Block(title, goal);
      s[..|prefix|] == prefix && BlockEndsAt(s, |prefix|, title, goal)
  {
    BlockMarkers(prefix, title, goal);
    BlockText(prefix, title, goal);
  }

  /** A block with a non-empty trimmed title without `goal:` and a non-empty trimmed goal
      without the closing marker is laid out as the pattern reads it. */
  lemma LaidOutFromPieces(s: string, p: nat, title: string, goal: string)
    requires title != [] && IsTrimmed(title) && !Contains(title, GoalLabel)
    requires goal != [] && IsTrimmed(goal) && !Contains(goal, Close)
    requires BlockEndsAt(s, p, title, goal)
    ensures BlockLaidOut(s, p, p + 27 + |title|, p + 34 + |title| + |goal|)
  {
    var te := p + 27 + |title|;
    var ge := te + 7 + |goal|;
    assert s[p + 27] == title[0] && s[te - 1] == title[|title| - 1];
    assert s[te + 7] == goal[0] && s[ge - 1] == goal[|goal| - 1];
  }

  /** Round trip: a block in the format the system prompt asks for, with a non-empty
      trimmed title that does not contain `goal:` and a non-empty trimmed goal that does
      not contain the closing marker, placed after any text without an opening marker,
      parses back to exactly that title and goal. */
  lemma ParseBlock(prefix: string, title: string, goal: string)
    requires !Contains(prefix, Open)
    requires title != [] && IsTrimmed(title) && !Contains(title, GoalLabel)
    requires goal != [] && IsTrimmed(goal) && !Contains(goal, Close)
    ensures Parse(prefix + Block(title, goal)) == Some(Selection(title, goal))
  {
    BlockEnds(prefix, title, goal);
    ParseEnded(prefix + Block(title, goal), prefix, title, goal);
  }

  /** A text made of a prefix without an opening marker and a block that ends it parses to
      the block's title and goal. */
  lemma ParseEnded(s: string, prefix: string, title: string, goal: string)
    requires |prefix| <= |s| && s[..|prefix|] == prefix && !Contains(prefix, Open)
    requires title != [] && IsTrimmed(title) && !Contains(title, GoalLabel)
    requires goal != [] && IsTrimmed(goal) && !Contains(goal, Close)
    requires BlockEndsAt(s, |prefix|, title, goal)
    ensures Parse(s) == Some(Selection(title, goal))
  {
    var p := |prefix|;
    var te := p + 27 + |title|;
    LaidOutFromPieces(s, p, title, goal);
    assert s[0..p] == s[..p];
    ParseLaidOut(s, p, te, te + 7 + |goal|, prefix, title, goal);
  }

  /** A text without an opening marker before a block laid out at `p` parses to the
      block's title and goal, when those are trimmed. */
  lemma ParseLaidOut(s: string, p: nat, te: nat, ge: nat, prefix: string, title: string, goal: string)
    requires BlockLaidOut(s, p, te, ge) && s[0..p] == prefix && !Contains(prefix, Open)
    requires s[p + 27..te] == title && s[te + 7..ge] == goal && IsTrimmed(title) && IsTrimmed(goal)
    ensures Parse(s) == Some(Selection(title, goal))
  {
    PrefixSkipped(s, p);
    BlockMatch(s, p, te, ge);
    ParseFinds(s, p, BlockCaptures(p, te, ge));
    SelectedBlock(s, p, te, ge, title, goal);
  }

  /** The groups of a block's match, trimmed, are its title and goal when those are trimmed. */
  lemma SelectedBlock(s: string, p: nat, te: nat, ge: nat, title: string, goal: string)
    requires IsMatch(s, BlockCaptures(p, te, ge))
    requires s[p + 27..te] == title && s[te + 7..ge] == goal && IsTrimmed(title) && IsTrimmed(goal)
    ensures Selected(s, BlockCaptures(p, te, ge)) == Selection(title, goal)
  {
  }

  /** No match starts inside a prefix without an opening marker. */
  lemma PrefixSkipped(s: string, p: nat)
    requires Occurs(s, p, Open) && !Contains(s[0..p], Open)
    ensures MatchFrom(s, 0) == MatchFrom(s, p)
  {
    assert Open[0] == '[';
    assert s[p] == '[';
    forall x | 0 <= x < p
      ensures MatchAt(s, x).None?
    {
      NoneStartsInside(s, 0, p, Open, x);
    }
    MatchFromSkips(s, 0, p);
  }

  /** When the search reaches `p` and the pattern matches there, the parser returns that
      match's trimmed groups. */
  lemma ParseFinds(s: string, p: nat, m: Captures)
    requires p <= |s| && MatchFrom(s, 0) == MatchFrom(s, p) && MatchAt(s, p) == Some(m)
    ensures IsMatch(s, m) && Parse(s) == Some(Selected(s, m))
  {
    MatchAtSound(s, p);
  }
}
