/** The parameters registry of a resource: attributes that were initialised as parameters keep a record of their value and
    of whether the value was implied by a default. */
module Params {
  import opened Values

  /** `Resource.Param`. */
  class Param {
    var value: Json
    var implied: bool
    const default: Json

    constructor (value: Json, default: Json)
      ensures this.value == Initial(value, default) && this.default == default
      ensures implied == IsImplied(value, default)
    {
      this.value := if value == Null && default != Null then default else value;
      this.implied := value == Null && default != Null;
      this.default := default;
    }
  }

  function Initial(value: Json, default: Json): Json { if value == Null && default != Null then default else value }

  predicate IsImplied(value: Json, default: Json) { value == Null && default != Null }

  /** Assigning an attribute: a plain value, or a parameter made from a value and a default. */
  datatype Assignment = Plain(key: string, value: Json) | Init(key: string, value: Json, default: Json)

  /** What the registry records for a parameter. */
  datatype Entry = Entry(value: Json, implied: bool, default: Json)

  datatype State = State(attributes: map<string, Json>, params: map<string, Entry>)

  /** `Resource.__setattr__`. */
  function Assign(s: State, a: Assignment): State {
    match a
    case Init(key, value, default) =>
      State(s.attributes[key := Initial(value, default)],
            s.params[key := Entry(Initial(value, default), IsImplied(value, default), default)])
    case Plain(key, value) =>
      State(s.attributes[key := value],
            if key in s.params then s.params[key := Entry(value, false, s.params[key].default)] else s.params)
  }

  function AssignAll(assignments: seq<Assignment>): State {
    if assignments == [] then State(map[], map[])
    else Assign(AssignAll(assignments[..|assignments| - 1]), assignments[|assignments| - 1])
  }

  /** The last assignment to the attribute. */
  function LastTo(assignments: seq<Assignment>, key: string): Option<Assignment> {
    if assignments == [] then None
    else if assignments[|assignments| - 1].key == key then Some(assignments[|assignments| - 1])
    else LastTo(assignments[..|assignments| - 1], key)
  }

  /** The last assignment that made the attribute a parameter. */
  function LastInit(assignments: seq<Assignment>, key: string): Option<Assignment> {
    if assignments == [] then None
    else if assignments[|assignments| - 1].key == key && assignments[|assignments| - 1].Init? then
      Some(assignments[|assignments| - 1])
    else LastInit(assignments[..|assignments| - 1], key)
  }

  /** The assignment falls back to a default: it makes a parameter of no value and a default that is there. */
  predicate FallsBack(a: Assignment) { a.Init? && a.value == Null && a.default != Null }

  /** The value that an assignment gives the attribute: its own, or the default it falls back to. */
  function Given(a: Assignment): Json { if FallsBack(a) then a.default else a.value }

  /** After any assignments: every parameter has the value of its attribute, which is the value last given to it; it is
      implied if and only if that last assignment made it a parameter without a value and with a default; and the default
      is the one of the last assignment that made it a parameter. */
  lemma {:induction false} RegistryIsInSync(assignments: seq<Assignment>, key: string)
    ensures var (s, last, init) := (AssignAll(assignments), LastTo(assignments, key), LastInit(assignments, key));
            && (key in s.attributes <==> last.Some?) && (last.Some? ==> s.attributes[key] == Given(last.value))
            && (key in s.params <==> init.Some?) && (init.Some? ==> last.Some? && init.value.Init?)
            && (init.Some? ==>
                  s.params[key] == Entry(Given(last.value), FallsBack(last.value), init.value.default))
    decreases |assignments|
  {
    if assignments != [] {
      RegistryIsInSync(assignments[..|assignments| - 1], key);
    }
  }

  /** The resource as an object: attributes and registered parameter objects, no two attributes with the same one. */
  class Resource {
    var attributes: map<string, Json>
    var params: map<string, Param>
    ghost var assignments: seq<Assignment>

    ghost predicate Valid()
      reads this, params.Values
    {
      && (forall k, l :: k in params && l in params && k != l ==> params[k] != params[l])
      && attributes == AssignAll(assignments).attributes
      && params.Keys == AssignAll(assignments).params.Keys
      && forall k :: k in params ==>
           AssignAll(assignments).params[k] == Entry(params[k].value, params[k].implied, params[k].default)
    }

    constructor ()
      ensures Valid() && assignments == [] && params == map[]
    {
      attributes, params, assignments := map[], map[], [];
    }

    /** Assigning a parameter made on the spot, as `init_param` does. */
    method SetParam(key: string, value: Json, default: Json) returns (param: Param)
      requires Valid()
      modifies this
      ensures Valid() && assignments == old(assignments) + [Init(key, value, default)]
      ensures fresh(param) && params == old(params)[key := param]
    {
      param := new Param(value, default);
      params := params[key := param];
      attributes := attributes[key := param.value];
      assignments := assignments + [Init(key, value, default)];
      assert assignments[..|assignments| - 1] == old(assignments);
    }

    /** Assigning a plain value; a parameter behind the attribute follows and is no longer implied. */
    method SetValue(key: string, value: Json)
      requires Valid()
      modifies this, params.Values
      ensures Valid() && assignments == old(assignments) + [Plain(key, value)] && params == old(params)
    {
      if key in params {
        var param := params[key];
        param.value := value;
        param.implied := false;
      }
      attributes := attributes[key := value];
      assignments := assignments + [Plain(key, value)];
      assert assignments[..|assignments| - 1] == old(assignments);
    }
  }
}
