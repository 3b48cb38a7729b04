/** The player colour pool of the lobby and the list of colours still free in it. */
module Colors {

  /** An RGB triple. */
  datatype Color = Color(r: int, g: int, b: int)

  /** `COLOR_POOL`: sixteen fixed colours, in the order a fresh player may draw them. */
  const Pool: seq<Color> := [
    Color(255, 0, 0), Color(0, 255, 0), Color(0, 0, 255), Color(255, 255, 0),
    Color(255, 0, 255), Color(0, 255, 255), Color(255, 165, 0), Color(128, 0, 128),
    Color(0, 128, 128), Color(128, 128, 0), Color(255, 105, 180), Color(0, 100, 255),
    Color(0, 200, 50), Color(255, 20, 147), Color(139, 69, 19), Color(100, 149, 237)
  ]

  /** A colour that three draws of `random.randint(50, 255)` can produce. */
  predicate InFallbackRange(c: Color) {
    50 <= c.r <= 255 && 50 <= c.g <= 255 && 50 <= c.b <= 255
  }

  /** The entries of `cs` that are not in `used`, in their order in `cs`. */
  function Unused(cs: seq<Color>, used: set<Color>): (r: seq<Color>)
    ensures |r| <= |cs|
    ensures forall c :: c in r <==> c in cs && c !in used
  {
    if cs == [] then []
    else if cs[0] in used then Unused(cs[1..], used)
    else [cs[0]] + Unused(cs[1..], used)
  }

  /** `[c for c in COLOR_POOL if c not in used_colors]`. */
  function Available(used: set<Color>): (r: seq<Color>)
    ensures forall c :: c in r <==> c in Pool && c !in used
  {
    Unused(Pool, used)
  }

  /** The pool holds sixteen different colours. */
  lemma PoolDistinct()
    ensures |Pool| == 16
    ensures forall i, j :: 0 <= i < j < |Pool| ==> Pool[i] != Pool[j]
  {}

  /** A colour is offered at most once, so two different draws give two different colours. */
  lemma AvailableDistinct(used: set<Color>)
    ensures forall i, j :: 0 <= i < j < |Available(used)| ==> Available(used)[i] != Available(used)[j]
  {
    PoolDistinct();
    UnusedDistinct(Pool, used);
  }

  lemma {:induction false} UnusedDistinct(cs: seq<Color>, used: set<Color>)
    requires forall i, j :: 0 <= i < j < |cs| ==> cs[i] != cs[j]
    ensures forall i, j :: 0 <= i < j < |Unused(cs, used)| ==> Unused(cs, used)[i] != Unused(cs, used)[j]
  {
    if cs != [] {
      UnusedDistinct(cs[1..], used);
      assert cs[0] !in cs[1..];
    }
  }

  /** The fallback is taken exactly when every pool colour is in use. */
  lemma AvailableEmptyIff(used: set<Color>)
    ensures Available(used) == [] <==> (forall i :: 0 <= i < |Pool| ==> Pool[i] in used)
  {
    if Available(used) != [] {
      var c := Available(used)[0];
      assert c in Pool && c !in used;
    }
  }

  /** Every pool colour not in use is offered exactly once. */
  lemma {:induction false} UnusedCount(cs: seq<Color>, used: set<Color>)
    requires forall i, j :: 0 <= i < j < |cs| ==> cs[i] != cs[j]
    ensures |Unused(cs, used)| + |set c | c in cs && c in used| == |cs|
  {
    if cs != [] {
      UnusedCount(cs[1..], used);
      var rest := set c | c in cs[1..] && c in used;
      var all := set c | c in cs && c in used;
      assert cs[0] !in cs[1..];
      if cs[0] in used {
        assert all == rest + {cs[0]};
      } else {
        assert all == rest;
      }
    }
  }

  /** The number of free pool colours is sixteen minus the pool colours in use. */
  lemma AvailableCount(used: set<Color>)
    ensures |Available(used)| == 16 - |set c | c in Pool && c in used|
  {
    PoolDistinct();
    UnusedCount(Pool, used);
  }
}
