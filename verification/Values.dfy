/** Values, locations and states of the interpreter, and the algebra of update sets over them. */
module Values {

  datatype Option<+T> = None | Some(value: T)

  /** Run-time values. A location that holds no value reads as Undef; symbols occur in symbolic mode only. */
  datatype Value =
    | Undef
    | Self
    | Int(i: int)
    | Boolean(b: bool)
    | RuleRef(rule: string)
    | Enum(element: string)
    | ListOf(items: seq<Value>)
    | Symbol(id: nat)

  /** A function symbol applied to argument values. */
  datatype Location = Location(func: string, args: seq<Value>)

  /** Updates keyed by location; an update to Undef is an entry like any other. */
  type Updates = map<Location, Value>

  /** No location is updated by both. */
  predicate Disjoint(u: Updates, v: Updates) {
    forall l :: l in u ==> l !in v
  }

  /** A state is canonical: a location without a value is absent instead of mapped to Undef. */
  type State = s: map<Location, Value> | forall l :: l in s ==> s[l] != Undef witness map[]

  function Lookup(s: State, l: Location): Value {
    if l in s then s[l] else Undef
  }

  /** The canonical state of a function table that may hold explicit Undef entries. */
  function Defined(m: map<Location, Value>): State {
    map l | l in m && m[l] != Undef :: m[l]
  }

  /** Firing an update set. */
  function Fire(s: State, u: Updates): State {
    Defined(s + u)
  }

  lemma LookupFire(s: State, u: Updates, l: Location)
    ensures Lookup(Fire(s, u), l) == if l in u then u[l] else Lookup(s, l)
  {
  }

  lemma StatesEqual(s: State, t: State)
    requires forall l :: Lookup(s, l) == Lookup(t, l)
    ensures s == t
  {
    forall l ensures l in s <==> l in t {
      assert Lookup(s, l) == Lookup(t, l);
    }
    forall l | l in s ensures s[l] == t[l] {
      assert Lookup(s, l) == Lookup(t, l);
    }
  }

  /** Firing two update sets in turn is firing the first overridden by the second. */
  lemma FireTwice(s: State, u: Updates, v: Updates)
    ensures Fire(Fire(s, u), v) == Fire(s, u + v)
  {
    StatesEqual(Fire(Fire(s, u), v), Fire(s, u + v));
  }

  lemma FireNothing(s: State)
    ensures Fire(s, map[]) == s
  {
    StatesEqual(Fire(s, map[]), s);
  }
}
