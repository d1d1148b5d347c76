/**
 * The evaluator's scope chain. The source links each scope to its parent;
 * here the chain is a sequence of maps, root first and innermost last,
 * and it is never empty.
 */
module Environment {
  import opened Wrappers
  import opened Values

  type Scope = map<string, Value>

  /** A scope chain: at least the root scope, innermost last. */
  type Env = s: seq<Scope> | |s| > 0 witness [map[]]

  /** `Environment::default()`: one empty root scope. */
  function Root(): (r: Env)
    ensures |r| == 1 && r[0] == map[]
  {
    [map[]]
  }

  /** The same names are bound in the same scopes, whatever their values. */
  predicate SameShape(a: seq<Scope>, b: seq<Scope>) {
    |a| == |b| && forall i :: 0 <= i < |a| ==> a[i].Keys == b[i].Keys
  }

  /** The two scopes bind every name other than `name` alike. */
  predicate AgreeExcept(a: Scope, b: Scope, name: string) {
    && a.Keys - {name} == b.Keys - {name}
    && (forall k :: k in a && k in b && k != name ==> a[k] == b[k])
  }

  /** `name` is bound to the same value, or unbound, in each scope of both chains. */
  predicate AgreeOn(a: seq<Scope>, b: seq<Scope>, name: string) {
    && |a| == |b|
    && (forall i :: 0 <= i < |a| ==> (name in a[i] <==> name in b[i]))
    && (forall i :: 0 <= i < |a| && name in a[i] ==> a[i][name] == b[i][name])
  }

  /** `define`: bind `name` in the innermost scope, replacing a binding there; outer scopes keep theirs. */
  function Define(e: Env, name: string, v: Value): (r: Env)
    ensures |r| == |e| && r[..|e| - 1] == e[..|e| - 1]
    ensures name in r[|e| - 1] && r[|e| - 1][name] == v
    ensures AgreeExcept(r[|e| - 1], e[|e| - 1], name)
  {
    e[|e| - 1 := e[|e| - 1][name := v]]
  }

  /** `find`: the innermost scope binding `name`, if any. */
  function FindIndex(e: seq<Scope>, name: string): (r: Option<nat>)
    ensures r.Some? ==> r.value < |e| && name in e[r.value]
    ensures r.Some? ==> forall j :: r.value < j < |e| ==> name !in e[j]
    ensures r.None? ==> forall j :: 0 <= j < |e| ==> name !in e[j]
    decreases |e|
  {
    if |e| == 0 then None
    else if name in e[|e| - 1] then Some(|e| - 1)
    else FindIndex(e[..|e| - 1], name)
  }

  /** `get`: the value of the innermost binding of `name`. */
  function Get(e: seq<Scope>, name: string): (r: Option<Value>)
    ensures r.Some? <==> exists i :: 0 <= i < |e| && name in e[i]
  {
    match FindIndex(e, name)
    case Some(i) => Some(e[i][name])
    case None => None
  }

  /**
   * `set`: replace the innermost binding of `name` and return the value it
   * held; an unbound name changes nothing and yields `None`.
   */
  function Set(e: Env, name: string, v: Value): (r: (Env, Option<Value>))
    ensures r.1 == Get(e, name)
    ensures r.1.None? ==> r.0 == e
    ensures SameShape(r.0, e)
  {
    match FindIndex(e, name)
    case Some(i) => (e[i := e[i][name := v]], Some(e[i][name]))
    case None => (e, None)
  }

  /** `push`: a new, empty innermost scope. */
  function Push(e: Env): (r: Env)
    ensures |r| == |e| + 1 && r[..|e|] == e && r[|e|] == map[]
  {
    e + [map[]]
  }

  /** `pop`: drop the innermost scope; `None` is the panic "pop called on root environment". */
  function Pop(e: Env): (r: Option<Env>)
    ensures r.None? <==> |e| == 1
    ensures r.Some? ==> r.value == e[..|e| - 1]
  {
    if |e| == 1 then None else Some(e[..|e| - 1])
  }

  /** Lookup is the innermost binding: the scope found binds the name and no inner one does. */
  lemma GetIsInnermost(e: Env, name: string, v: Value)
    ensures Get(e, name) == Some(v) <==>
      exists i :: 0 <= i < |e| && name in e[i] && e[i][name] == v && forall j :: i < j < |e| ==> name !in e[j]
  {
    if Get(e, name) == Some(v) {
      var i := FindIndex(e, name).value;
      assert name in e[i] && e[i][name] == v;
    }
    if exists i :: 0 <= i < |e| && name in e[i] && e[i][name] == v && forall j :: i < j < |e| ==> name !in e[j] {
      var i :| 0 <= i < |e| && name in e[i] && e[i][name] == v && forall j :: i < j < |e| ==> name !in e[j];
      var k := FindIndex(e, name).value;
      assert k == i;
    }
  }

  /** Two chains that agree on `name` scope by scope find it in the same place. */
  lemma {:induction false} FindIndexAgrees(a: seq<Scope>, b: seq<Scope>, name: string)
    requires AgreeOn(a, b, name)
    ensures FindIndex(a, name) == FindIndex(b, name)
    decreases |a|
  {
    if |a| > 0 && name !in a[|a| - 1] {
      FindIndexAgrees(a[..|a| - 1], b[..|b| - 1], name);
    }
  }

  lemma GetAgrees(a: seq<Scope>, b: seq<Scope>, name: string)
    requires AgreeOn(a, b, name)
    ensures Get(a, name) == Get(b, name)
  {
    FindIndexAgrees(a, b, name);
  }

  /** `define` binds the name where `get` finds it first, and leaves every other name as it was. */
  lemma DefineThenGet(e: Env, name: string, v: Value, other: string)
    ensures Get(Define(e, name, v), name) == Some(v)
    ensures other != name ==> Get(Define(e, name, v), other) == Get(e, other)
  {
    var d := Define(e, name, v);
    assert FindIndex(d, name) == Some(|e| - 1);
    if other != name {
      forall i | 0 <= i < |e| - 1
        ensures d[i] == e[i]
      {
        assert d[i] == d[..|e| - 1][i];
      }
      GetAgrees(d, e, other);
    }
  }

  /**
   * `set` on a bound name replaces exactly the innermost binding: `get`
   * then returns the new value, the scope found is the only one that
   * changes, and other names read as before.
   */
  lemma SetReplacesInnermost(e: Env, name: string, v: Value, other: string)
    requires Get(e, name).Some?
    ensures var (e', prev) := Set(e, name, v);
      && prev == Get(e, name)
      && Get(e', name) == Some(v)
      && (forall j :: 0 <= j < |e| && j != FindIndex(e, name).value ==> e'[j] == e[j])
      && (other != name ==> Get(e', other) == Get(e, other))
  {
    var i := FindIndex(e, name).value;
    var e' := Set(e, name, v).0;
    assert e' == e[i := e[i][name := v]];
    GetIsInnermost(e', name, v);
    assert name in e'[i] && e'[i][name] == v;
    if other != name {
      GetAgrees(e', e, other);
    }
  }

  /** `set` never creates a binding: on an unbound name it leaves the chain as it was. */
  lemma SetUnboundChangesNothing(e: Env, name: string, v: Value)
    requires forall i :: 0 <= i < |e| ==> name !in e[i]
    ensures Set(e, name, v) == (e, None)
  {
  }

  /** A new scope hides nothing: every name reads as before. */
  lemma PushPreservesGet(e: Env, name: string)
    ensures Get(Push(e), name) == Get(e, name)
  {
    var p := Push(e);
    assert name !in p[|e|];
    assert p[..|e|] == e;
  }

  /** `push` then `pop` restores the chain, discarding whatever was defined in between. */
  lemma PushPopRestores(e: Env, name: string, v: Value)
    ensures Pop(Push(e)) == Some(e)
    ensures Pop(Define(Push(e), name, v)) == Some(e)
  {
    var d := Define(Push(e), name, v);
    assert d[..|e|] == Push(e)[..|e|] == e;
  }
}
