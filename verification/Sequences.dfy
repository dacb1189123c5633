/** A list of lists as one list. */
module Sequences {
  function Flatten<T>(h: seq<seq<T>>): seq<T> {
    if h == [] then [] else h[0] + Flatten(h[1..])
  }

  lemma {:induction false} FlattenAppend<T>(g: seq<seq<T>>, h: seq<seq<T>>)
    ensures Flatten(g + h) == Flatten(g) + Flatten(h)
  {
    if g == [] {
      assert g + h == h;
    } else {
      assert (g + h)[1..] == g[1..] + h;
      FlattenAppend(g[1..], h);
    }
  }

  lemma FlattenOne<T>(s: seq<T>)
    ensures Flatten([s]) == s
  {
    assert Flatten([s]) == s + Flatten([]);
  }

  lemma FlattenSplit<T>(h: seq<seq<T>>)
    requires |h| > 0
    ensures Flatten(h) == Flatten(h[..|h| - 1]) + h[|h| - 1]
  {
    var front, last := h[..|h| - 1], h[|h| - 1];
    assert h == front + [last];
    FlattenAppend(front, [last]);
    FlattenOne(last);
  }

  lemma SplitAt<T>(s: seq<T>, k: nat)
    requires k < |s|
    ensures s == s[..k] + ([s[k]] + s[k + 1..])
    ensures s[..k + 1] == s[..k] + [s[k]] && s == s[..k + 1] + s[k + 1..]
  {}
}
