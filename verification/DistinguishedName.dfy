module DistinguishedName {

  datatype Ava = Ava(attributeType: string, value: string)
  type Rdn = seq<Ava>
  type DN = seq<Rdn>

  // ----------------------------------------------------------- the hierarchy

  /** `x` is `d` or lies below it: `d` is a suffix of `x`. */
  predicate IsUnder(x: DN, d: DN) {
    |d| <= |x| && x[|x| - |d|..] == d
  }

  /** The child of `d` that `x` lies in. */
  function Branch(x: DN, d: DN): Rdn
    requires IsUnder(x, d) && x != d
  {
    x[|x| - |d| - 1]
  }

  lemma UnderSelf(x: DN)
    ensures IsUnder(x, x)
  {
  }

  lemma HeadTail(x: DN)
    requires x != []
    ensures x == [x[0]] + x[1..]
  {
  }

  lemma UnderTrans(x: DN, y: DN, z: DN)
    requires IsUnder(x, y) && IsUnder(y, z)
    ensures IsUnder(x, z)
  {
    assert x[|x| - |z|..] == x[|x| - |y|..][|y| - |z|..];
  }

  /** What lies below a child is what lies below the parent in that branch. */
  lemma UnderChild(x: DN, r: Rdn, d: DN)
    ensures IsUnder(x, [r] + d) <==> IsUnder(x, d) && x != d && Branch(x, d) == r
  {
    if IsUnder(x, [r] + d) {
      assert x[|x| - |d|..] == x[|x| - |d| - 1..][1..] == d;
    }
    if IsUnder(x, d) && x != d && Branch(x, d) == r {
      assert x[|x| - |d| - 1..] == [r] + x[|x| - |d|..];
    }
  }

  /** The parent of something below `d`, other than `d` itself, is below `d`. */
  lemma UnderUp(x: DN, d: DN)
    requires x != []
    ensures IsUnder(x, x[1..])
    ensures x != d ==> (IsUnder(x, d) <==> IsUnder(x[1..], d))
  {
    if IsUnder(x[1..], d) {
      UnderTrans(x, x[1..], d);
    }
    if IsUnder(x, d) && x != d {
      assert x[1..][|x[1..]| - |d|..] == x[|x| - |d|..];
    }
  }

  lemma UpNotUnder(x: DN, c: DN)
    requires x != [] && !IsUnder(x, c)
    ensures !IsUnder(x[1..], c)
  {
    UnderUp(x, x);
    if IsUnder(x[1..], c) {
      UnderTrans(x, x[1..], c);
    }
  }

  /** DistinguishedName.contains: does the tree rooted at `mine` hold `its`? */
  method Contains(mine: DN, its: DN) returns (r: bool)
    ensures r <==> IsUnder(its, mine)
  {
    if mine == its {
      return true;
    }
    var i, j := |mine|, |its|;
    while i > 0 && j > 0
      invariant 0 <= i <= |mine| && 0 <= j <= |its| && |mine| - i == |its| - j
      invariant mine[i..] == its[j..]
      decreases i
    {
      i, j := i - 1, j - 1;
      if mine[i] != its[j] {
        assert |mine| <= |its| ==> its[|its| - |mine|..][i] == its[j];
        return false;
      }
      assert mine[i..] == [mine[i]] + mine[i + 1..];
      assert its[j..] == [its[j]] + its[j + 1..];
    }
    r := i == 0;
  }
}
