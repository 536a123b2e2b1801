/**
  The briefing endpoint: the system prompt built from the client's task list, the
  request validation with its error responses, and the relay that forwards the text of
  the model's streamed deltas. The language-model service is a parameter: the events it
  would stream and whether its stream fails after them.
 */
module BriefingRoute {
  import opened Wrappers
  import opened Text
  import opened TaskTypes
  import opened MarkerParse

  /** A task as the client sends it: the tier is a free string here. */
  datatype TaskRef = TaskRef(id: string, title: string, tier: string)

  const OneThingTier: string := "one-thing"
  const Placeholder: string := "(No tasks yet)"
  const TasksHeading: string := "The user's current tasks:\n"
  const TitleHint: string := "<exact task title from the list>"
  const GoalHint: string := "<their stated goal/reason in one sentence>"

  /** The tasks the prompt lists: every task whose tier is not `one-thing`, in order. */
  function Candidates(tasks: seq<TaskRef>): (r: seq<TaskRef>)
    ensures |r| <= |tasks|
    ensures forall t :: t in r <==> t in tasks && t.tier != OneThingTier
  {
    if tasks == [] then []
    else (if tasks[0].tier != OneThingTier then [tasks[0]] else []) + Candidates(tasks[1..])
  }

  /** The filter keeps the input order: it distributes over concatenation. */
  lemma {:induction false} CandidatesAppend(a: seq<TaskRef>, b: seq<TaskRef>)
    ensures Candidates(a + b) == Candidates(a) + Candidates(b)
  {
    if a != [] {
      assert (a + b)[1..] == a[1..] + b;
      CandidatesAppend(a[1..], b);
    } else {
      assert a + b == b;
    }
  }

  /** One line per task: `- ` and the title. */
  function Bullets(tasks: seq<TaskRef>): (r: seq<string>)
  {
    seq(|tasks|, k requires 0 <= k < |tasks| => "- " + tasks[k].title)
  }

  /** The task list, one line per remaining task, joined with line breaks. */
  function TaskList(tasks: seq<TaskRef>): string {
    Join(Bullets(Candidates(tasks)), "\n")
  }

  /** With at least one remaining task the list starts with a bullet, so it is not empty. */
  lemma TaskListStartsWithBullet(tasks: seq<TaskRef>)
    requires Candidates(tasks) != []
    ensures var list := TaskList(tasks); |list| >= 2 && list[..2] == "- "
  {
    var parts := Bullets(Candidates(tasks));
    JoinEnds(parts, "\n");
    var list := Join(parts, "\n");
    assert list[..|parts[0]|] == parts[0];
    assert list[..2] == parts[0][..2];
  }

  /** The task section of the prompt: the list, or the placeholder exactly when no task
      survives the filter. */
  function TaskSection(tasks: seq<TaskRef>): (r: string)
    ensures r == Placeholder <==> Candidates(tasks) == []
    ensures Candidates(tasks) != [] ==> r == TaskList(tasks)
  {
    var list := TaskList(tasks);
    if Candidates(tasks) != [] then
      TaskListStartsWithBullet(tasks);
      assert list[0] == '-' != Placeholder[0];
      list
    else Placeholder
  }

  /** The prompt's task section and its marker block. The prose around them (the role,
      the conversation flow and the closing sentence) is not part of this model. */
  function SystemPrompt(tasks: seq<TaskRef>): (r: string)
    ensures |r| > |Block(TitleHint, GoalHint)|
    ensures r[|r| - |Block(TitleHint, GoalHint)|..] == Block(TitleHint, GoalHint)
  {
    var head := TasksHeading + TaskSection(tasks) + "\n\n";
    assert (head + Block(TitleHint, GoalHint))[|head|..] == Block(TitleHint, GoalHint);
    head + Block(TitleHint, GoalHint)
  }

  /** When titles hold no line break, the section splits back into exactly one line per
      remaining task, `- ` and its title, in input order: no one-thing task is listed and
      no line break trails the last line. */
  lemma TaskSectionLines(tasks: seq<TaskRef>)
    requires Candidates(tasks) != []
    requires forall t :: t in tasks ==> '\n' !in t.title
    ensures Split(TaskSection(tasks), '\n') == Bullets(Candidates(tasks))
  {
    TaskListStartsWithBullet(tasks);
    var parts := Bullets(Candidates(tasks));
    forall k | 0 <= k < |parts|
      ensures '\n' !in parts[k]
    {
      assert Candidates(tasks)[k] in tasks;
      assert parts[k] == "- " + Candidates(tasks)[k].title;
    }
    SplitJoin(parts, '\n');
  }

  /** The prompt ends with the marker block, and the parser accepts that block's shape:
      with no `[` in any title, the prompt itself parses to the block's two hints. */
  lemma PromptBlockParses(tasks: seq<TaskRef>)
    requires forall t :: t in tasks ==> '[' !in t.title
    ensures Parse(SystemPrompt(tasks)) == Some(Selection(TitleHint, GoalHint))
  {
    var prefix := TasksHeading + TaskSection(tasks) + "\n\n";
    SectionAvoids(tasks);
    NoFirstCharNoOccurrence(prefix, Open);
    HintsWellFormed();
    ParseBlock(prefix, TitleHint, GoalHint);
  }

  /** With no `[` in any title, the text of the prompt before the block has none. */
  lemma SectionAvoids(tasks: seq<TaskRef>)
    requires forall t :: t in tasks ==> '[' !in t.title
    ensures '[' !in TasksHeading + TaskSection(tasks) + "\n\n"
  {
    TaskSectionAvoids(tasks);
    var a, b := TasksHeading, TaskSection(tasks);
    assert '[' !in a;
    assert '[' !in a + b;
  }

  /** With no `[` in any title, the task section has none. */
  lemma TaskSectionAvoids(tasks: seq<TaskRef>)
    requires forall t :: t in tasks ==> '[' !in t.title
    ensures '[' !in TaskSection(tasks)
  {
    if Candidates(tasks) != [] {
      var parts := Bullets(Candidates(tasks));
      forall k | 0 <= k < |parts|
        ensures '[' !in parts[k]
      {
        assert Candidates(tasks)[k] in tasks;
        assert parts[k] == "- " + Candidates(tasks)[k].title;
      }
      JoinAvoids(parts, "\n", '[');
    }
  }

  /** The two placeholders of the block meet the conditions of the parser's round trip. */
  lemma HintsWellFormed()
    ensures TitleHint != [] && IsTrimmed(TitleHint) && !Contains(TitleHint, GoalLabel)
    ensures GoalHint != [] && IsTrimmed(GoalHint) && !Contains(GoalHint, Close)
  {
    TitleHintAvoids();
    GoalHintAvoids();
  }

  /** `goal:` does not stand in the title placeholder: it has no `g`. */
  lemma TitleHintAvoids()
    ensures !Contains(TitleHint, GoalLabel)
  {
    NoFirstCharNoOccurrence(TitleHint, GoalLabel);
  }

  /** The closing marker does not stand in the goal placeholder: it has no `[`. */
  lemma GoalHintAvoids()
    ensures !Contains(GoalHint, Close)
  {
    NoFirstCharNoOccurrence(GoalHint, Close);
  }

  /** The part of a streamed event the relay looks at. */
  datatype Delta = TextDelta(text: string) | OtherDelta
  datatype Event = ContentBlockDelta(delta: Delta) | OtherEvent

  /** The texts of the text-carrying `content_block_delta` events, in order. */
  function DeltaTexts(events: seq<Event>): (r: seq<string>)
    ensures |r| <= |events|
  {
    if events == [] then []
    else
      (match events[0]
       case ContentBlockDelta(TextDelta(t)) => [t]
       case _ => [])
      + DeltaTexts(events[1..])
  }

  /** The relayed texts of a stream are those of its parts, in order. */
  lemma {:induction false} DeltaTextsAppend(a: seq<Event>, b: seq<Event>)
    ensures DeltaTexts(a + b) == DeltaTexts(a) + DeltaTexts(b)
  {
    if a != [] {
      assert (a + b)[1..] == a[1..] + b;
      DeltaTextsAppend(a[1..], b);
    } else {
      assert a + b == b;
    }
  }

  /** A text is relayed exactly when some event is a text delta carrying it. */
  lemma {:induction false} DeltaTextsMembers(events: seq<Event>, t: string)
    ensures t in DeltaTexts(events) <==> ContentBlockDelta(TextDelta(t)) in events
  {
    if events != [] {
      DeltaTextsMembers(events[1..], t);
      assert events == [events[0]] + events[1..];
    }
  }

  /** The request body, when it is valid JSON. A missing field is `None`. */
  datatype Body = Body(messages: Option<seq<Message>>, tasks: Option<seq<TaskRef>>)

  /** What the language-model service does for a request: the events it streams and
      whether iterating its stream throws after them. */
  datatype Upstream = Upstream(events: seq<Event>, fails: bool)

  /** The request sent to the language-model service. */
  datatype ModelRequest = ModelRequest(system: string, messages: seq<Message>)

  /** A JSON error response, or a text stream made of the relayed chunks that is closed
      normally or, when the upstream stream failed, left errored. */
  datatype Response =
    | JsonError(status: int, error: string)
    | TextStream(chunks: seq<string>, closed: bool)

  /** The body carries a non-empty task list. */
  predicate HasTasks(body: Body) {
    body.tasks.Some? && body.tasks.value != []
  }

  const NoTasksError: string := "No tasks provided"
  const FailedError: string := "Failed to process briefing"

  /** The POST handler. `body` is `None` when the body is not JSON; `setupThrows` says
      whether creating the upstream stream throws. Returns the response and the request
      sent to the service, if any. */
  method Post(body: Option<Body>, setupThrows: bool, upstream: Upstream)
    returns (response: Response, sent: Option<ModelRequest>)
    ensures body.None? ==> response == JsonError(500, FailedError) && sent.None?
    ensures body.Some? && !HasTasks(body.value) ==> response == JsonError(400, NoTasksError) && sent.None?
    ensures body.Some? && HasTasks(body.value) && (body.value.messages.None? || setupThrows) ==>
      response == JsonError(500, FailedError) && sent.None?
    ensures body.Some? && HasTasks(body.value) && body.value.messages.Some? && !setupThrows ==>
      && sent == Some(ModelRequest(SystemPrompt(body.value.tasks.value), body.value.messages.value))
      && response == TextStream(DeltaTexts(upstream.events), !upstream.fails)
  {
    if body.None? {
      return JsonError(500, FailedError), None;
    }
    var tasks := body.value.tasks;
    if tasks.None? || |tasks.value| == 0 {
      return JsonError(400, NoTasksError), None;
    }
    var system := SystemPrompt(tasks.value);
    if body.value.messages.None? || setupThrows {
      return JsonError(500, FailedError), None;
    }
    sent := Some(ModelRequest(system, body.value.messages.value));
    var chunks := Relay(upstream.events);
    response := TextStream(chunks, !upstream.fails);
  }

  /** The stream's `start`: walks the events and enqueues the text of each text delta. */
  method Relay(events: seq<Event>) returns (chunks: seq<string>)
    ensures chunks == DeltaTexts(events)
  {
    chunks := [];
    var i := 0;
    while i < |events|
      invariant i <= |events|
      invariant chunks == DeltaTexts(events[..i])
    {
      DeltaTextsAppend(events[..i], [events[i]]);
      assert events[..i + 1] == events[..i] + [events[i]];
      match events[i] {
        case ContentBlockDelta(TextDelta(t)) =>
          chunks := chunks + [t];
        case _ =>
      }
      i := i + 1;
    }
    assert events[..i] == events;
  }
}
