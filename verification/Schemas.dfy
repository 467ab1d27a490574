/** State definitions, their relations, and closure under Require. */
module Schemas {
  /** State names are only ever compared for equality. */
  type Name(==, !new)

  datatype State = State(
    auto: bool, multi: bool,
    require: seq<Name>, add: seq<Name>, remove: seq<Name>, after: seq<Name>)

  type Schema = map<Name, State>

  /** Looking up a missing name gives the zero State, as the source's maps do. */
  function Def(schema: Schema, n: Name): State {
    if n in schema then schema[n] else State(false, false, [], [], [], [])
  }

  ghost predicate Closed(schema: Schema, a: set<Name>) {
    forall n, r :: n in a && r in Def(schema, n).require ==> r in a
  }

  /** Some Require-closed part of `x` holds `n`. */
  ghost predicate Supported(schema: Schema, x: set<Name>, n: Name) {
    exists c: set<Name> :: n in c && c <= x && Closed(schema, c)
  }

  /** Everything in `x` that some Require-closed part of `x` supports. */
  ghost function Kernel(schema: Schema, x: set<Name>): set<Name> {
    set n | n in x && Supported(schema, x, n)
  }

  /** `Kernel` is the greatest Require-closed subset. */
  lemma KernelIsGreatest(schema: Schema, x: set<Name>)
    ensures Kernel(schema, x) <= x
    ensures Closed(schema, Kernel(schema, x))
    ensures forall c: set<Name> :: c <= x && Closed(schema, c) ==> c <= Kernel(schema, x)
  {
    var k := Kernel(schema, x);
    forall n, r | n in k && r in Def(schema, n).require ensures r in k {
      var c: set<Name> :| n in c && c <= x && Closed(schema, c);
      assert r in c;
      assert Supported(schema, x, r);
    }
    forall c: set<Name> | c <= x && Closed(schema, c) ensures c <= k {
      forall n | n in c ensures n in k {
        assert Supported(schema, x, n);
      }
    }
  }

  lemma KernelOfClosed(schema: Schema, x: set<Name>)
    requires Closed(schema, x)
    ensures Kernel(schema, x) == x
  {
  }

  /** Shrinking the input to anything that still holds the kernel keeps the kernel. */
  lemma KernelBetween(schema: Schema, x: set<Name>, y: set<Name>)
    requires Kernel(schema, x) <= y <= x
    ensures Kernel(schema, y) == Kernel(schema, x)
  {
  }

  lemma KernelMonotone(schema: Schema, x: set<Name>, y: set<Name>)
    requires x <= y
    ensures Kernel(schema, x) <= Kernel(schema, y)
  {
  }
}
