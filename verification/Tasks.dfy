/** Tasks and the per-run context through which they exchange values. */
module Tasks {
  import opened Wrappers
  import opened Values

  type Bag = map<string, TaskOutput>

  /** What one execution does: the values it publishes itself, and what it returns. */
  datatype Effect = Effect(puts: Bag, result: Result<TaskOutput, string>)

  /** A task body is an arbitrary deterministic function of the context's bag. */
  datatype Task = Task(id: string, body: Bag -> Effect)

  class Context {
    const runId: string
    var state: Bag

    constructor (runId: string)
      ensures this.runId == runId && state == map[]
      ensures forall key :: Get(key) == None
    {
      this.runId := runId;
      state := map[];
    }

    function Get(key: string): Option<TaskOutput>
      reads this
    {
      if key in state then Some(state[key]) else None
    }

    method Put(key: string, value: TaskOutput)
      modifies this
      ensures state == old(state)[key := value]
      ensures Get(key) == Some(value)
      ensures forall k :: k != key ==> Get(k) == old(Get(k))
    {
      state := state[key := value];
    }
  }

  method Execute(t: Task, ctx: Context) returns (r: Result<TaskOutput, string>)
    modifies ctx
    ensures r == t.body(old(ctx.state)).result
    ensures ctx.state == old(ctx.state) + t.body(old(ctx.state)).puts
  {
    var e := t.body(ctx.state);
    ctx.state := ctx.state + e.puts;
    r := e.result;
  }
}
