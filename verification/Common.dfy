/** Small datatypes shared by the models. */
module Common {

  // Task, node and schedule identifiers.
  type Id = string

  datatype Option<+T> = None | Some(value: T)

  /** A present, non-empty string: what both JavaScript and Python treat as true. */
  predicate Truthy(o: Option<string>) {
    o.Some? && o.value != ""
  }

  function Init<T>(s: seq<T>): seq<T>
    requires s != []
  {
    s[..|s| - 1]
  }

  function Last<T>(s: seq<T>): T
    requires s != []
  {
    s[|s| - 1]
  }

  lemma MultisetOfLast<T>(s: seq<T>)
    requires s != []
    ensures multiset(s) == multiset(Init(s)) + multiset{Last(s)}
  {
    assert s == Init(s) + [Last(s)];
  }

  function One(b: bool): nat {
    if b then 1 else 0
  }

  /** How a set grows when one element joins it, leaves it, or stays as it was. */
  lemma SizeWithMember<T>(s: set<T>, x: T, belongs: bool)
    ensures |if belongs then s + {x} else s - {x}| == |s| - One(x in s) + One(belongs)
  {
    assert x in s ==> s + {x} == s;
    assert x !in s ==> s - {x} == s;
  }
}
