/** The shapes shared by the task table, the briefing endpoint and the briefing hook. */
module TaskTypes {
  import opened Wrappers

  /** The four priority tiers a task can sit in. */
  datatype Tier = OneThing | Supporting | IfTime | Backlog

  /** The tier as it travels in JSON and is stored in the database. */
  function TierName(t: Tier): (name: string)
    ensures name == "one-thing" <==> t == OneThing
  {
    match t
    case OneThing => "one-thing"
    case Supporting => "supporting"
    case IfTime => "if-time"
    case Backlog => "backlog"
  }

  lemma TierNameInjective(a: Tier, b: Tier)
    requires TierName(a) == TierName(b)
    ensures a == b
  {
  }

  type TaskId = string

  /** A row of the task table. `createdAt` is a timestamp in milliseconds; the
      timestamps the database maintains on its own and the fields no modelled
      operation reads or writes are not part of this model. */
  datatype Task = Task(
    id: TaskId,
    title: string,
    description: Option<string>,
    tier: Tier,
    completed: bool,
    createdAt: int)

  datatype Role = User | Assistant

  /** One entry of the briefing transcript. */
  datatype Message = Message(role: Role, content: string)
}
