/** Edge orientation and default edge ids. */
module Direction {
  import opened Protocol

  /** A swap draw is taken only when edges are directed and randomly oriented. */
  predicate DrawsSwap(directed: bool, randomlyDirected: bool) {
    directed && randomlyDirected
  }

  /** The endpoints after the swap decision: the same two ids, exchanged when
      `swap` holds. */
  function Orient(swap: bool, from: Id, to: Id): (ends: (Id, Id))
    ensures multiset{ends.0, ends.1} == multiset{from, to}
    ensures !swap ==> ends == (from, to)
    ensures swap ==> ends == (to, from)
  {
    if swap then (to, from) else (from, to)
  }

  /** The edge id: the one given, or else the endpoints joined by '_'. */
  function EdgeIdOf(id: Option<Id>, from: Id, to: Id): (eid: Id)
    ensures id.Some? ==> eid == id.value
    ensures id.None? ==> |eid| == |from| + 1 + |to| && eid[|from|] == '_'
    ensures id.None? ==> eid[..|from|] == from && eid[|from| + 1..] == to
  {
    match id
    case Some(given) => given
    case None => from + "_" + to
  }

  /** Splits `s` at its first occurrence of `c`. */
  function SplitAtFirst(s: string, c: char): (r: Option<(string, string)>)
    ensures r.Some? ==> s == r.value.0 + [c] + r.value.1 && c !in r.value.0
    ensures r.None? ==> c !in s
  {
    if s == [] then None
    else if s[0] == c then Some(([], s[1..]))
    else
      match SplitAtFirst(s[1..], c)
      case None => None
      case Some(parts) => Some(([s[0]] + parts.0, parts.1))
  }

  lemma {:induction false} SplitAtFirstOf(a: string, c: char, b: string)
    requires c !in a
    ensures SplitAtFirst(a + [c] + b, c) == Some((a, b))
  {
    if a != [] {
      assert (a + [c] + b)[1..] == a[1..] + [c] + b;
      SplitAtFirstOf(a[1..], c, b);
      assert [a[0]] + a[1..] == a;
    } else {
      assert a + [c] + b == [c] + b;
    }
  }

  /** A synthesised id determines its endpoints whenever the source id has no
      '_' in it: splitting at the first '_' gives them back. */
  lemma DefaultIdRoundTrip(from: Id, to: Id)
    requires '_' !in from
    ensures SplitAtFirst(EdgeIdOf(None, from, to), '_') == Some((from, to))
  {
    SplitAtFirstOf(from, '_', to);
  }

  /** Without that restriction two different edges can receive the same
      synthesised id: a_b -> c and a -> b_c are both named "a_b_c". */
  lemma DefaultIdCollision()
    ensures ("a_b", "c") != ("a", "b_c")
    ensures EdgeIdOf(None, "a_b", "c") == EdgeIdOf(None, "a", "b_c") == "a_b_c"
  {
  }
}
