/** Sequences without duplicates, seen as sets. */
module Collections {
  datatype Option<+T> = None | Some(value: T)

  ghost predicate NoDuplicates<T>(s: seq<T>) {
    s != [] ==> s[0] !in s[1..] && NoDuplicates(s[1..])
  }

  ghost function Elements<T>(s: seq<T>): set<T> {
    set x | x in s
  }

  lemma FirstElement<T>(s: seq<T>)
    requires s != []
    ensures Elements(s) == {s[0]} + Elements(s[1..])
  {
    assert s == [s[0]] + s[1..];
  }

  /** The first `n` elements, or all of them. */
  function UpTo<T>(s: seq<T>, n: nat): seq<T> {
    if n <= |s| then s[..n] else s
  }

  lemma FirstUpTo<T>(x: T, s: seq<T>, n: nat)
    requires n > 0
    ensures UpTo([x] + s, n) == [x] + UpTo(s, n - 1)
  {
  }
}
