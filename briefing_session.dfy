/**
  The briefing hook: the transcript and the three flags of one briefing session, and the
  operations that start a briefing, send a user message and reset the session. Each
  operation runs as one atomic step; the server's streamed reply is a parameter (the
  chunks it delivers, already decoded, and whether it ends normally), and the server
  action that records the choice runs against the task store it is given.
 */
module BriefingSession {
  import opened Wrappers
  import opened Text
  import opened TaskTypes
  import opened MarkerParse
  import opened BriefingRoute
  import opened TaskStore

  const StartText: string := "Start my morning briefing."
  const ApologyText: string := "Sorry, something went wrong. Please try again."

  /** What the hook gets back from the endpoint: a failed request (a network error or a
      status that is not OK), or a body streamed in chunks, ending normally or with a
      read error after the chunks. */
  datatype Reply = Refused | Streamed(chunks: seq<string>, finished: bool)

  /** The body the hook posts. */
  datatype Request = Request(messages: seq<Message>, tasks: seq<TaskRef>)

  /** The task chosen by a completion block and the goal stated with it. */
  datatype Choice = Choice(task: Task, goal: string)

  /** The chunks in order, accumulated one at a time. */
  function Concat(chunks: seq<string>): string {
    if chunks == [] then "" else Concat(chunks[..|chunks| - 1]) + chunks[|chunks| - 1]
  }

  /** Accumulating in two runs gives the same text as in one. */
  lemma {:induction false} ConcatAppend(a: seq<string>, b: seq<string>)
    ensures Concat(a + b) == Concat(a) + Concat(b)
    decreases |b|
  {
    if b == [] {
      assert a + b == a;
    } else {
      var b' := b[..|b| - 1];
      assert (a + b)[..|a + b| - 1] == a + b';
      ConcatAppend(a, b');
    }
  }

  /** The tasks as the hook posts them: id, title and tier name. */
  function Refs(tasks: seq<Task>): (r: seq<TaskRef>)
    ensures |r| == |tasks|
  {
    seq(|tasks|, k requires 0 <= k < |tasks| => TaskRef(tasks[k].id, tasks[k].title, TierName(tasks[k].tier)))
  }

  /** The tasks the prompt will list are the posted tasks outside the `one-thing` tier. */
  lemma RefsCandidates(tasks: seq<Task>)
    ensures forall r :: r in Candidates(Refs(tasks)) <==>
      exists k :: 0 <= k < |tasks| && tasks[k].tier != OneThing && r == Refs(tasks)[k]
  {
  }

  /** `tasks.find`: the first task whose title equals `title` ignoring case. */
  function FindByTitle(tasks: seq<Task>, title: string): (r: Option<nat>)
    ensures r.Some? ==> r.value < |tasks| && SameIgnoringCase(tasks[r.value].title, title)
    ensures r.Some? ==> forall k :: 0 <= k < r.value ==> !SameIgnoringCase(tasks[k].title, title)
    ensures r.None? ==> forall k :: 0 <= k < |tasks| ==> !SameIgnoringCase(tasks[k].title, title)
  {
    if tasks == [] then None
    else if SameIgnoringCase(tasks[0].title, title) then Some(0)
    else match FindByTitle(tasks[1..], title)
      case None => None
      case Some(i) => Some(i + 1)
  }

  /** The completion check after a reply: the block's title looked up among the tasks. */
  function Resolve(text: string, tasks: seq<Task>): (r: Option<Choice>)
    ensures r.Some? ==> Parse(text).Some? && r.value.task in tasks
    ensures r.Some? ==> r.value.goal == Parse(text).value.goal
    ensures r.Some? ==> SameIgnoringCase(r.value.task.title, Parse(text).value.taskTitle)
    ensures r.Some? ==> r.value.task == tasks[FindByTitle(tasks, Parse(text).value.taskTitle).value]
    ensures r.None? <==> Parse(text).None? || FindByTitle(tasks, Parse(text).value.taskTitle).None?
  {
    match Parse(text)
    case None => None
    case Some(sel) =>
      match FindByTitle(tasks, sel.taskTitle)
      case None => None
      case Some(i) => Some(Choice(tasks[i], sel.goal))
  }

  /** A reply ending with a well-formed block naming task `k` (ignoring case), no earlier
      task matching, completes the briefing with that task and the block's goal. */
  lemma ResolveBlock(tasks: seq<Task>, prefix: string, title: string, goal: string, k: nat)
    requires !Contains(prefix, Open)
    requires title != [] && IsTrimmed(title) && !Contains(title, GoalLabel)
    requires goal != [] && IsTrimmed(goal) && !Contains(goal, Close)
    requires k < |tasks| && SameIgnoringCase(tasks[k].title, title)
    requires forall j :: 0 <= j < k ==> !SameIgnoringCase(tasks[j].title, title)
    ensures Resolve(prefix + Block(title, goal), tasks) == Some(Choice(tasks[k], goal))
  {
    ParseBlock(prefix, title, goal);
    var found := FindByTitle(tasks, title);
    if found.Some? {
      assert !(found.value < k) && !(k < found.value);
    }
  }

  /** The transcript after `chunks` of an assistant reply have arrived: the prior
      messages and, once a chunk has arrived, one assistant message holding all of them. */
  function Transcript(prior: seq<Message>, chunks: seq<string>): (r: seq<Message>)
    ensures chunks == [] ==> r == prior
    ensures chunks != [] ==> |r| == |prior| + 1 && r[..|prior|] == prior && r[|prior|].role == Assistant
  {
    if chunks == [] then prior else prior + [Message(Assistant, Concat(chunks))]
  }

  /** One briefing session. `tasks` is the task list the hook was given. */
  class Briefing {
    const tasks: seq<Task>
    var messages: seq<Message>
    var isLoading: bool
    var isComplete: bool
    var selectedTask: Option<Task>
    /** The requests posted to the endpoint, oldest first. */
    ghost var requests: seq<Request>

    /** The session is complete exactly when a task is selected, and that task is one of
        the session's tasks. */
    predicate Valid()
      reads this
    {
      (isComplete <==> selectedTask.Some?) && (selectedTask.Some? ==> selectedTask.value in tasks)
    }

    constructor(tasks: seq<Task>)
      ensures Valid() && this.tasks == tasks
      ensures messages == [] && !isLoading && !isComplete && selectedTask.None? && requests == []
    {
      this.tasks := tasks;
      messages := [];
      isLoading := false;
      isComplete := false;
      selectedTask := None;
      requests := [];
    }

    /** `reset`: an empty transcript and cleared flags, whatever the state before, so a
        second reset changes nothing. */
    method Reset()
      modifies this
      ensures Valid() && requests == old(requests)
      ensures messages == [] && !isLoading && !isComplete && selectedTask.None?
    {
      messages := [];
      isLoading := false;
      isComplete := false;
      selectedTask := None;
    }

    /** Reads the streamed reply, rewriting the last message on every chunk. */
    method Stream(prior: seq<Message>, chunks: seq<string>) returns (text: string)
      requires messages == prior
      modifies this
      ensures text == Concat(chunks) && messages == Transcript(prior, chunks)
      ensures isLoading == old(isLoading) && isComplete == old(isComplete)
      ensures selectedTask == old(selectedTask) && requests == old(requests)
    {
      text := "";
      var i := 0;
      while i < |chunks|
        invariant i <= |chunks|
        invariant text == Concat(chunks[..i]) && messages == Transcript(prior, chunks[..i])
        invariant isLoading == old(isLoading) && isComplete == old(isComplete)
        invariant selectedTask == old(selectedTask) && requests == old(requests)
      {
        assert chunks[..i + 1][..i] == chunks[..i];
        text := text + chunks[i];
        messages := prior + [Message(Assistant, text)];
        i := i + 1;
      }
      assert chunks[..i] == chunks;
    }

    /** The completion check and the server action it triggers. Returns whether the
        action raised. */
    method Complete(text: string, store: TaskStore.Database, now: int) returns (raised: bool)
      requires Valid() && store.Valid()
      requires !isComplete
      modifies this, store
      ensures Valid() && store.Valid()
      ensures messages == old(messages) && isLoading == old(isLoading) && requests == old(requests)
      ensures Resolve(text, tasks).None? ==>
        !raised && !isComplete && selectedTask.None? && unchanged(store)
      ensures Resolve(text, tasks).Some? ==>
        var c := Resolve(text, tasks).value;
        && isComplete && selectedTask == Some(c.task)
        && (raised <==> c.task.id !in Ids(old(store.tasks)))
        && store.tasks == CompletedTasks(old(store.tasks), c.task.id)
        && store.reviews == CompletedReviews(old(store.reviews), old(store.tasks), c.task.id, c.goal, now)
    {
      raised := false;
      var choice := Resolve(text, tasks);
      if choice.Some? {
        selectedTask := Some(choice.value.task);
        isComplete := true;
        var outcome := store.CompleteBriefing(choice.value.task.id, choice.value.goal, now);
        raised := outcome.Fail?;
      }
    }

    /** `startBriefing`: clears the session, posts the opening user message and streams
        the reply into a one-message transcript, then checks it for a completion block.
        Any failure, including one of the server action, replaces the transcript with the
        apology; loading ends in every case. */
    method StartBriefing(reply: Reply, store: TaskStore.Database, now: int)
      requires Valid() && store.Valid()
      modifies this, store
      ensures Valid() && store.Valid() && !isLoading
      ensures requests == old(requests) + [Request([Message(User, StartText)], Refs(tasks))]
      ensures !(reply.Streamed? && reply.finished) ==>
        messages == [Message(Assistant, ApologyText)] && !isComplete && selectedTask.None? && unchanged(store)
      ensures reply.Streamed? && reply.finished && Resolve(Concat(reply.chunks), tasks).None? ==>
        messages == Transcript([], reply.chunks) && !isComplete && selectedTask.None? && unchanged(store)
      ensures reply.Streamed? && reply.finished && Resolve(Concat(reply.chunks), tasks).Some? ==>
        var c := Resolve(Concat(reply.chunks), tasks).value;
        && isComplete && selectedTask == Some(c.task)
        && store.tasks == CompletedTasks(old(store.tasks), c.task.id)
        && store.reviews == CompletedReviews(old(store.reviews), old(store.tasks), c.task.id, c.goal, now)
        && messages == (if c.task.id in Ids(old(store.tasks)) then Transcript([], reply.chunks)
                        else [Message(Assistant, ApologyText)])
    {
      isLoading := true;
      messages := [];
      isComplete := false;
      selectedTask := None;
      requests := requests + [Request([Message(User, StartText)], Refs(tasks))];
      var failed := true;
      if reply.Streamed? {
        var text := Stream([], reply.chunks);
        if reply.finished {
          failed := Complete(text, store, now);
        }
      }
      if failed {
        messages := [Message(Assistant, ApologyText)];
      }
      isLoading := false;
    }

    /** `sendMessage`: ignored while loading or complete; otherwise appends the user
        message, posts the whole transcript and streams the reply into one assistant
        message after it, then checks it for a completion block. A failure keeps the
        transcript as it stands; loading ends in every case. */
    method SendMessage(content: string, reply: Reply, store: TaskStore.Database, now: int)
      requires Valid() && store.Valid()
      modifies this, store
      ensures Valid() && store.Valid()
      ensures old(isLoading) || old(isComplete) ==>
        && messages == old(messages) && isLoading == old(isLoading) && isComplete == old(isComplete)
        && selectedTask == old(selectedTask) && requests == old(requests) && unchanged(store)
      ensures !old(isLoading) && !old(isComplete) ==>
        var sent := old(messages) + [Message(User, content)];
        && !isLoading
        && requests == old(requests) + [Request(sent, Refs(tasks))]
        && messages == Transcript(sent, if reply.Streamed? then reply.chunks else [])
      ensures !old(isLoading) && !old(isComplete) && !(reply.Streamed? && reply.finished) ==>
        !isComplete && selectedTask.None? && unchanged(store)
      ensures !old(isLoading) && !old(isComplete) && reply.Streamed? && reply.finished ==>
        var r := Resolve(Concat(reply.chunks), tasks);
        && (r.None? ==> !isComplete && selectedTask.None? && unchanged(store))
        && (r.Some? ==>
             && isComplete && selectedTask == Some(r.value.task)
             && store.tasks == CompletedTasks(old(store.tasks), r.value.task.id)
             && store.reviews == CompletedReviews(old(store.reviews), old(store.tasks), r.value.task.id, r.value.goal, now))
    {
      if isLoading || isComplete {
        return;
      }
      var sent := messages + [Message(User, content)];
      messages := sent;
      isLoading := true;
      requests := requests + [Request(sent, Refs(tasks))];
      if reply.Streamed? {
        var text := Stream(sent, reply.chunks);
        if reply.finished {
          var raised := Complete(text, store, now);
        }
      }
      isLoading := false;
    }
  }
}
