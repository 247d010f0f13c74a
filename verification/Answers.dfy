/** The value getters, on the running engine. */
module Answers {
  import opened Text
  import opened Numbers
  import opened World
  import opened Knobs
  import Runs
  import Values
  import Eval
  import opened EngineModule

  /** sknobs_get_dynamic_value */
  method GetDynamic(e: Engine, name: string, default: nat) returns (value: nat)
    requires e.Valid() && default < TWO64
    requires Values.GetDynamic(e.world, e.State(), name, default).Some?
    modifies e.Frame()
    ensures e.Valid() && e.Frame() == old(e.Frame())
    ensures Values.GetDynamic(e.world, old(e.State()), name, default) == Some((value, e.State().dice))
    ensures e.State().db == old(e.State()).db && e.table.cache == old(e.table.cache)
  {
    hide e.Valid, Eval.Evaluate;
    var expr := FetchString(e, name);
    if expr == None {
      return default;
    }
    value := EvaluateText(e, expr.value);
  }

  method FetchString(e: Engine, name: string) returns (expr: Option<string>)
    requires e.Valid()
    modifies e.Frame()
    ensures e.Valid() && e.Frame() == old(e.Frame()) && e.State() == old(e.State())
    ensures e.table.cache == old(e.table.cache)
    ensures expr == GetString(e.world, e.State().db, name, None)
  {
    hide Matches;
    expr := e.db.GetString(name, None);
  }

  method EvaluateText(e: Engine, expr: string) returns (value: nat)
    requires e.Valid() && Eval.Evaluate(e.world, e.State().dice, expr).Some?
    modifies e.Frame()
    ensures e.Valid() && e.Frame() == old(e.Frame())
    ensures Eval.Evaluate(e.world, old(e.State()).dice, expr) == Some((value, e.State().dice))
    ensures e.State().db == old(e.State()).db && e.table.cache == old(e.table.cache)
  {
    hide Eval.Evaluate;
    value := e.eval.Eval(expr);
  }

  /** What the engine's memory, with its table, stands for. */
  ghost function MachineOf(e: Engine): Runs.Machine
    reads e.db, e.eval.random, e.table
  {
    Runs.Machine(e.State(), e.table.cache)
  }

  /** sknobs_get_value: the answer given before, or a new one that is remembered. */
  method GetValue(e: Engine, name: string, default: nat) returns (value: nat)
    requires e.Valid() && default < TWO64
    requires Runs.GetValue(e.world, MachineOf(e), name, default).Some?
    modifies e.Frame(), e.table, e.table.buckets
    ensures e.Valid() && e.Frame() == old(e.Frame())
    ensures Runs.GetValue(e.world, old(MachineOf(e)), name, default) == Some((MachineOf(e), value))
  {
    hide Values.GetDynamic, e.Valid;
    var saved := Recall(e, name);
    if saved.Some? {
      return saved.value;
    }
    value := GetDynamic(e, name, default);
    Remember(e, name, value);
  }

  method Recall(e: Engine, name: string) returns (saved: Option<nat>)
    requires e.Valid()
    ensures saved == if name in e.table.cache then Some(e.table.cache[name]) else None
  {
    saved := e.table.Lookup(name);
  }

  method Remember(e: Engine, name: string, value: nat)
    requires e.Valid() && name !in e.table.cache && value < TWO64
    modifies e.table, e.table.buckets
    ensures e.Valid() && e.Frame() == old(e.Frame()) && e.State() == old(e.State())
    ensures e.table.cache == old(e.table.cache)[name := value]
  {
    e.table.Insert(name, value);
  }
}
