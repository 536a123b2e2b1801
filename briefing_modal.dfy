/**
  The briefing modal: the input field, the submit guard, closing (which resets the
  session before telling the page), the effect that starts a briefing when the modal is
  open with an empty transcript, and what the modal shows.
 */
module BriefingModal {
  import opened Wrappers
  import opened Text
  import opened TaskTypes
  import opened MarkerParse
  import opened MarkerClean
  import opened TaskStore
  import opened BriefingSession

  /** What the modal asked of the session and of the page, in order. */
  datatype Effect = Started | Sent(content: string) | ResetSession | ClosedByPage

  /** The text shown for a message: the content without the completion block, trimmed,
      and with no marker pair left in it. */
  function Shown(m: Message): (r: string)
    ensures IsTrimmed(r) && !OpenThenClose(r)
  {
    CleanHidesMarkers(m.content);
    Clean(m.content)
  }

  /** A reply streamed in three chunks, the last being `A.` followed by the completion
      block for the task "Write report" and the goal "ship the Q3 summary": once the
      hook has joined the chunks, the modal shows only the sentence before the block,
      and the parser reads the block. */
  lemma StreamedReplyExample(chunks: seq<string>)
    requires chunks == ["Pick ", "item ", "A." + Block("Write report", "ship the Q3 summary")]
    ensures Shown(Message(Assistant, Concat(chunks))) == "Pick item A."
    ensures Parse(Concat(chunks)) == Some(Selection("Write report", "ship the Q3 summary"))
  {
    var prefix, title, goal := "Pick item A.", "Write report", "ship the Q3 summary";
    var block := Block(title, goal);
    assert chunks[..2] == ["Pick ", "item "] && chunks[..2][..1] == ["Pick "];
    assert Concat(["Pick "]) == "Pick ";
    assert Concat(chunks) == "Pick " + "item " + ("A." + block);
    JoinedPieces(block);
    ExamplePieces();
    BlockReply(Concat(chunks), prefix, title, goal);
  }

  /** The three chunks of the example joined, for any block after them. */
  lemma JoinedPieces(block: string)
    ensures "Pick " + "item " + ("A." + block) == "Pick item A." + block
  {
    assert "Pick " + "item " + "A." == "Pick item A.";
  }

  /** The sentence, title and goal of the example meet the round trip's conditions. */
  lemma ExamplePieces()
    ensures IsTrimmed("Pick item A.") && !Contains("Pick item A.", Open)
    ensures "Write report" != [] && IsTrimmed("Write report") && !Contains("Write report", GoalLabel)
    ensures "ship the Q3 summary" != [] && IsTrimmed("ship the Q3 summary")
    ensures !Contains("ship the Q3 summary", Close)
  {
    NoFirstCharNoOccurrence("Pick item A.", Open);
    NoFirstCharNoOccurrence("Write report", GoalLabel);
    NoFirstCharNoOccurrence("ship the Q3 summary", Close);
  }

  class Modal {
    const session: Briefing
    var input: string
    /** Whether the page shows the modal; `onClose` makes the page hide it. */
    var isOpen: bool
    /** The effects issued so far, oldest first. */
    ghost var trace: seq<Effect>

    constructor(session: Briefing, isOpen: bool)
      ensures this.session == session && this.isOpen == isOpen && input == "" && trace == []
    {
      this.session := session;
      this.isOpen := isOpen;
      input := "";
      trace := [];
    }

    /** The typing indicator: loading with nothing in the transcript yet. */
    predicate ShowsTyping()
      reads this, session
    {
      isOpen && session.isLoading && session.messages == []
    }

    /** The success notice: complete with a selected task. */
    predicate ShowsSuccess()
      reads this, session
    {
      isOpen && session.isComplete && session.selectedTask.Some?
    }

    /** The input form: shown until the session is complete. */
    predicate ShowsInputForm()
      reads this, session
    {
      isOpen && !session.isComplete
    }

    /** In an open modal over a valid session, exactly one of the success notice and the
        input form is shown. */
    lemma SuccessReplacesForm()
      requires isOpen && session.Valid()
      ensures ShowsSuccess() <==> !ShowsInputForm()
    {
    }

    /** While the first reply of an open, loading session streams in, the typing
        indicator shows until its first chunk arrives and not after. */
    lemma TypingUntilFirstChunk(chunks: seq<string>)
      requires isOpen && session.isLoading && session.messages == Transcript([], chunks)
      ensures ShowsTyping() <==> chunks == []
    {
    }

    /** The auto-start effect: starts a briefing when the modal is open and the
        transcript is empty. */
    method AutoStart(reply: Reply, store: Database, now: int)
      requires session.Valid() && store.Valid()
      modifies session, store, this
      ensures session.Valid() && store.Valid()
      ensures input == old(input) && isOpen == old(isOpen)
      ensures old(isOpen) && old(session.messages) == [] ==>
        && trace == old(trace) + [Started]
        && session.requests == old(session.requests) + [Request([Message(User, StartText)], Refs(session.tasks))]
        && !session.isLoading
      ensures !(old(isOpen) && old(session.messages) == []) ==>
        trace == old(trace) && unchanged(session) && unchanged(store)
    {
      if isOpen && session.messages == [] {
        session.StartBriefing(reply, store, now);
        trace := trace + [Started];
      }
    }

    /** `handleSubmit`: ignored when the trimmed input is empty or the session is loading;
        otherwise sends the trimmed input once and clears the field. */
    method HandleSubmit(reply: Reply, store: Database, now: int)
      requires session.Valid() && store.Valid()
      modifies this, session, store
      ensures session.Valid() && store.Valid() && isOpen == old(isOpen)
      ensures AllSpace(old(input)) || old(session.isLoading) ==>
        input == old(input) && trace == old(trace) && unchanged(session) && unchanged(store)
      ensures !AllSpace(old(input)) && !old(session.isLoading) ==>
        && input == "" && trace == old(trace) + [Sent(Trim(old(input)))]
        && (old(session.isComplete) ==> session.messages == old(session.messages))
        && (!old(session.isComplete) ==>
             session.messages == Transcript(old(session.messages) + [Message(User, Trim(old(input)))],
                                            if reply.Streamed? then reply.chunks else []))
    {
      var content := Trim(input);
      if content == "" || session.isLoading {
        return;
      }
      session.SendMessage(content, reply, store, now);
      trace := trace + [Sent(content)];
      input := "";
    }

    /** `handleClose`: resets the session, then tells the page to hide the modal. */
    method HandleClose()
      modifies this, session
      ensures session.Valid() && session.messages == [] && !session.isLoading
      ensures !session.isComplete && session.selectedTask.None?
      ensures !isOpen && input == old(input)
      ensures trace == old(trace) + [ResetSession, ClosedByPage]
    {
      session.Reset();
      trace := trace + [ResetSession];
      isOpen := false;
      trace := trace + [ClosedByPage];
    }
  }
}
