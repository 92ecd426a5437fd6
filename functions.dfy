/** The shell-function table: a name-to-body map updated in place. */
module Functions {
  import opened Base

  class FunctionTable {
    /** Raw body of each defined function, by name. */
    var bodies: map<string, string>

    /** `FunctionTable::default`: no function is defined. */
    constructor ()
      ensures bodies == map[]
      ensures forall name :: Get(name) == None
    {
      bodies := map[];
    }

    /** `get`: the body defined for `name`, if any. */
    function Get(name: string): (r: Option<string>)
      reads this
      ensures r.Some? <==> name in bodies
      ensures r.Some? ==> r.value == bodies[name]
    {
      if name in bodies then Some(bodies[name]) else None
    }

    /** `define`: binds `name` to `body`, replacing any earlier body; every
        other name keeps its body. */
    method Define(name: string, body: string)
      modifies this
      ensures bodies == old(bodies)[name := body]
      ensures Get(name) == Some(body)
      ensures forall other :: other != name ==> Get(other) == old(Get(other))
    {
      bodies := bodies[name := body];
    }
  }
}
