/** numberalloc.py: the search for a free number, by galloping and bisecting. */
module NumberAlloc {
  import opened Options

  // -------------------------------------------------------------- the search

  /** Where the search is between two turns of its loop, or how it ended. */
  datatype Search = Going(min: int, max: Option<int>, guess: int) | Ended(found: int)

  /** One turn: the number is asked about, and the bounds move. */
  function Turn(taken: int -> bool, s: Search): Search
    requires s.Going?
  {
    var min := if taken(s.guess) then s.guess else s.min;
    var max := if taken(s.guess) then s.max else Some(s.guess);
    if max.Some? && (max.value == min || max.value == min + 1) then Ended(max.value)
    else Going(min, max, ((if max.Some? then max.value else min + 1000) + min) / 2)
  }

  /** The search after `n` more turns, if it does not end before. */
  function After(taken: int -> bool, s: Search, n: nat): Search
    decreases n
  {
    if n == 0 || s.Ended? then s else After(taken, Turn(taken, s), n - 1)
  }

  ghost predicate Halts(taken: int -> bool, s: Search) {
    exists n: nat :: After(taken, s, n).Ended?
  }

  // ------------------------------------------------------------ when it ends

  /** With a maximum below the minimum: every number asked about on the way down to
      the maximum, and the maximum itself, is taken. */
  predicate AllTaken(taken: int -> bool, min: int, max: int)
    requires max < min
    decreases min - max
  {
    var guess := (max + min) / 2;
    taken(guess) && (guess == max || AllTaken(taken, guess, max))
  }

  /** What the search needs in order to end. */
  ghost predicate Ends(taken: int -> bool, min: int, max: Option<int>) {
    match max
    case None => exists k: nat :: !taken(Gallop(min, k))
    case Some(m) => min <= m || !taken(min) || AllTaken(taken, min, m)
  }

  /** The numbers asked about as long as there is no maximum. */
  function Gallop(min: int, k: nat): int {
    min + 500 * k
  }

  lemma OneTurn(taken: int -> bool, s: Search)
    requires s.Going?
    ensures Halts(taken, s) <==> Halts(taken, Turn(taken, s))
  {
    if Halts(taken, s) {
      var n: nat :| After(taken, s, n).Ended?;
      assert After(taken, Turn(taken, s), n - 1).Ended?;
    }
    if Halts(taken, Turn(taken, s)) {
      var n: nat :| After(taken, Turn(taken, s), n).Ended?;
      assert After(taken, s, n + 1).Ended?;
    }
  }

  lemma NoMore(taken: int -> bool, s: Search)
    requires s.Ended?
    ensures Halts(taken, s)
  {
    assert After(taken, s, 0).Ended?;
  }

  /** Once the maximum is free and below the minimum, it stays so for ever. */
  lemma {:induction false} StandsStill(taken: int -> bool, min: int, max: int, n: nat)
    requires max < min && !taken(max)
    ensures After(taken, Going(min, Some(max), (max + min) / 2), n).Going?
    decreases n
  {
    if n > 0 {
      var guess := (max + min) / 2;
      if taken(guess) {
        StandsStill(taken, guess, max, n - 1);
      } else {
        StandsStill(taken, min, guess, n - 1);
      }
    }
  }

  lemma {:induction false} Descent(taken: int -> bool, min: int, max: int)
    requires max < min
    ensures Halts(taken, Going(min, Some(max), (max + min) / 2)) <==> AllTaken(taken, min, max)
    decreases min - max
  {
    var guess := (max + min) / 2;
    var s := Going(min, Some(max), guess);
    OneTurn(taken, s);
    if !taken(guess) {
      forall n: nat ensures !After(taken, Turn(taken, s), n).Ended? {
        StandsStill(taken, min, guess, n);
      }
    } else if guess == max {
      NoMore(taken, Turn(taken, s));
    } else {
      Descent(taken, guess, max);
    }
  }

  lemma {:induction false} Bisection(taken: int -> bool, min: int, max: int)
    requires min + 1 < max
    ensures Halts(taken, Going(min, Some(max), (max + min) / 2))
    decreases max - min
  {
    var guess := (max + min) / 2;
    var s := Going(min, Some(max), guess);
    OneTurn(taken, s);
    if Turn(taken, s).Ended? {
      NoMore(taken, Turn(taken, s));
    } else if taken(guess) {
      Bisection(taken, guess, max);
    } else {
      Bisection(taken, min, guess);
    }
  }

  lemma {:induction false} GallopHalts(taken: int -> bool, min: int, k: nat)
    requires k > 0 && !taken(Gallop(min, k))
    ensures Halts(taken, Going(min, None, min + 500))
    decreases k
  {
    var s := Going(min, None, min + 500);
    OneTurn(taken, s);
    if taken(min + 500) {
      GallopHalts(taken, min + 500, k - 1);
    } else {
      Bisection(taken, min, min + 500);
    }
  }

  lemma {:induction false} GallopsOn(taken: int -> bool, min: int, n: nat)
    requires forall k: nat :: taken(Gallop(min, k))
    ensures After(taken, Going(min, None, min + 500), n).Going?
    decreases n
  {
    if n > 0 {
      assert taken(Gallop(min, 1));
      var next := min + 500;
      forall k: nat ensures taken(Gallop(next, k)) {
        assert Gallop(next, k) == Gallop(min, k + 1);
      }
      GallopsOn(taken, next, n - 1);
    }
  }

  /** The search ends exactly when, without a maximum, one of the numbers it gallops
      over is free; and with a maximum below the minimum, when the minimum is free
      or everything down to the maximum that is asked about is taken. */
  lemma EndsExactly(taken: int -> bool, min: int, max: Option<int>)
    ensures Halts(taken, Going(min, max, min)) <==> Ends(taken, min, max)
  {
    var s := Going(min, max, min);
    OneTurn(taken, s);
    if Turn(taken, s).Ended? {
      NoMore(taken, Turn(taken, s));
      assert !taken(min) ==> !taken(Gallop(min, 0));
    } else if max.Some? {
      if max.value < min { Descent(taken, min, max.value); } else { Bisection(taken, min, max.value); }
    } else if Ends(taken, min, max) {
      var k: nat :| !taken(Gallop(min, k));
      GallopHalts(taken, min, k);
    } else {
      forall n: nat ensures !After(taken, Turn(taken, s), n).Ended? {
        GallopsOn(taken, min, n);
      }
    }
  }

  /** For instance: from 0 down to -1, 0 taken and -1 free. */
  lemma NeverEnds(taken: int -> bool)
    requires taken(0) && !taken(-1)
    ensures !Halts(taken, Going(0, Some(-1), 0))
  {
    EndsExactly(taken, 0, Some(-1));
  }

  // ----------------------------------------------------------- what it finds

  /** The numbers asked about while every answer so far was that the number is
      taken, between `min` and a `max` that was given. */
  function Probes(min: int, max: int): seq<int>
    requires min <= max
    decreases max - min
  {
    if max <= min + 1 then [min] else [min] + Probes((max + min) / 2, max)
  }

  /** Whether one of those numbers is free. */
  predicate FreeProbe(taken: int -> bool, min: int, max: int)
    requires min <= max
    decreases max - min
  {
    !taken(min) || (max > min + 1 && FreeProbe(taken, (max + min) / 2, max))
  }

  lemma {:induction false} FreeProbeIs(taken: int -> bool, min: int, max: int)
    requires min <= max
    ensures FreeProbe(taken, min, max) <==> exists p :: p in Probes(min, max) && !taken(p)
    decreases max - min
  {
    if max > min + 1 {
      FreeProbeIs(taken, (max + min) / 2, max);
      assert forall p :: p in Probes(min, max) <==> p == min || p in Probes((max + min) / 2, max);
    } else {
      assert Probes(min, max) == [min];
    }
  }

  /** Between two bounds, the lower one taken: the number found has a taken one
      before it, and is free exactly when the upper bound or a probe is. */
  lemma {:induction false} BisectionFinds(taken: int -> bool, min: int, max: int, n: nat)
    requires min + 1 < max && taken(min)
    requires After(taken, Going(min, Some(max), (max + min) / 2), n).Ended?
    ensures var r := After(taken, Going(min, Some(max), (max + min) / 2), n).found;
            && min < r <= max && taken(r - 1)
            && (!taken(r) <==> !taken(max) || FreeProbe(taken, min, max))
            && (!taken(r) || r == max)
    decreases n
  {
    var guess := (max + min) / 2;
    if !Turn(taken, Going(min, Some(max), guess)).Ended? {
      if taken(guess) {
        BisectionFinds(taken, guess, max, n - 1);
      } else {
        BisectionFinds(taken, min, guess, n - 1);
      }
    }
  }

  lemma {:induction false} GallopFinds(taken: int -> bool, min: int, n: nat)
    requires taken(min) && After(taken, Going(min, None, min + 500), n).Ended?
    ensures var r := After(taken, Going(min, None, min + 500), n).found; min < r && taken(r - 1) && !taken(r)
    decreases n
  {
    if taken(min + 500) {
      GallopFinds(taken, min + 500, n - 1);
    } else {
      BisectionFinds(taken, min, min + 500, n - 1);
    }
  }

  lemma {:induction false} DescentFinds(taken: int -> bool, min: int, max: int, n: nat)
    requires max < min && After(taken, Going(min, Some(max), (max + min) / 2), n).Ended?
    ensures After(taken, Going(min, Some(max), (max + min) / 2), n).found == max && taken(max)
    decreases n
  {
    var guess := (max + min) / 2;
    if !taken(guess) {
      StandsStill(taken, min, guess, n - 1);
    } else if guess != max {
      DescentFinds(taken, guess, max, n - 1);
    }
  }

  /** What a search that was given these bounds says when it ends with `r`. With no
      maximum, a free number; with one, a number that is free exactly when the
      maximum is, or one of the numbers on the way there; and the first number
      tried, or one after a taken number. With a maximum below the minimum, the
      minimum if it is free and else the maximum, which is taken. */
  ghost predicate Finds(taken: int -> bool, min: int, max: Option<int>, r: int) {
    if max.Some? && max.value < min then
      if taken(min) then r == max.value && taken(r) else r == min
    else
      && min <= r && (!taken(r) || Some(r) == max)
      && (r == min || taken(r - 1))
      && (max.Some? ==> (!taken(r) <==> !taken(max.value) || FreeProbe(taken, min, max.value)))
      && (max == None ==> !taken(r))
  }

  lemma WhatIsFound(taken: int -> bool, min: int, max: Option<int>, n: nat)
    requires After(taken, Going(min, max, min), n).Ended?
    ensures Finds(taken, min, max, After(taken, Going(min, max, min), n).found)
  {
    if !Turn(taken, Going(min, max, min)).Ended? {
      if max == None {
        GallopFinds(taken, min, n - 1);
      } else if max.value < min {
        DescentFinds(taken, min, max.value, n - 1);
      } else {
        BisectionFinds(taken, min, max.value, n - 1);
      }
    }
  }

  /** The first number and the maximum taken, with a free one between them that is
      never asked about: the number found is taken. */
  lemma TakenIsFound(taken: int -> bool, r: int)
    requires (forall n :: taken(n) <==> n != 1) && Finds(taken, 0, Some(4), r)
    ensures r == 4 && taken(r) && !taken(1)
  {
  }

  class FreeNumberGuesser {
    var min: int
    var max: Option<int>

    constructor (min: Option<int>, max: Option<int>)
      ensures this.min == (if min.Some? then min.value else 0) && this.max == max
    {
      this.min := if min.Some? then min.value else 0;
      this.max := max;
    }

    /** Called where the search ends at all: EndsExactly shows that Ends says no more
        than that. */
    method StartGuessing(taken: int -> bool) returns (r: int)
      requires Ends(taken, min, max)
      modifies this
      ensures Finds(taken, old(min), old(max), r)
      ensures max == Some(r) && (min == r || min + 1 == r)
    {
      var guess := min;
      ghost var s := Going(min, max, min);
      EndsExactly(taken, min, max);
      ghost var n: nat :| After(taken, s, n).Ended?;
      ghost var left := n;
      while true
        invariant After(taken, s, n) == After(taken, Going(min, max, guess), left)
        decreases left
      {
        assert left > 0;
        var found := taken(guess);
        if found {
          min := guess;
        } else {
          max := Some(guess);
        }
        if max.Some? && (max.value == min || max.value == min + 1) {
          WhatIsFound(taken, s.min, s.max, n);
          return max.value;
        }
        var high := if max == None then min + 1000 else max.value;
        guess := (high + min) / 2;
        left := left - 1;
      }
    }
  }
}
