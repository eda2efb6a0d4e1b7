/**
 * The rank computation shared by both rank calculators, stated once as
 * functions: which matches count, how they are numbered, and how the
 * positions are written out as the rank string.
 *
 * A page is represented by the second capture group of every match of the
 * lookup pattern, in the order the regex engine reports the matches.
 */
module Ranking {
  import opened Text

  /**
   * The 1-based positions of the captured links that contain `target`, in
   * match order. Every match consumes a position, counted or not.
   */
  function Ranks(links: seq<string>, target: string): (ranks: seq<nat>)
    ensures |ranks| <= |links|
    ensures forall k :: 0 <= k < |ranks| ==> 1 <= ranks[k] <= |links|
    decreases |links|
  {
    if |links| == 0 then []
    else
      var n := |links|;
      Ranks(links[..n - 1], target) + (if Contains(links[n - 1], target) then [n] else [])
  }

  /** Looking at one more match extends the ranks by at most that match's position. */
  lemma RanksStep(links: seq<string>, target: string, i: nat)
    requires i < |links|
    ensures Ranks(links[..i + 1], target)
         == Ranks(links[..i], target) + (if Contains(links[i], target) then [i + 1] else [])
  {
    assert links[..i + 1][..i] == links[..i];
  }

  /** Position r is reported exactly when capture r - 1 contains the target. */
  lemma {:induction false} RanksMembership(links: seq<string>, target: string, r: nat)
    ensures r in Ranks(links, target) <==> 1 <= r <= |links| && Contains(links[r - 1], target)
    decreases |links|
  {
    if |links| > 0 {
      var n := |links|;
      var prefix := links[..n - 1];
      RanksMembership(prefix, target, r);
      if 1 <= r < n {
        assert prefix[r - 1] == links[r - 1];
      }
    }
  }

  predicate StrictlyIncreasing(ranks: seq<nat>)
  {
    forall i, j :: 0 <= i < j < |ranks| ==> ranks[i] < ranks[j]
  }

  /** Ranks come out in ascending order, hence without duplicates. */
  lemma {:induction false} RanksIncreasing(links: seq<string>, target: string)
    ensures StrictlyIncreasing(Ranks(links, target))
    decreases |links|
  {
    if |links| > 0 {
      RanksIncreasing(links[..|links| - 1], target);
    }
  }

  /** No rank is reported exactly when no capture contains the target. */
  lemma RanksEmptyIff(links: seq<string>, target: string)
    ensures (Ranks(links, target) == [])
        <==> (forall i :: 0 <= i < |links| ==> !Contains(links[i], target))
  {
    var ranks := Ranks(links, target);
    if ranks == [] {
      forall i | 0 <= i < |links|
        ensures !Contains(links[i], target)
      {
        RanksMembership(links, target, i + 1);
      }
    } else {
      RanksMembership(links, target, ranks[0]);
    }
  }

  // ---------------------------------------------------------------------
  // The rank string
  // ---------------------------------------------------------------------

  /** Each rank converted to its decimal string, in order. */
  function RankStrings(ranks: seq<nat>): (strs: seq<string>)
    ensures |strs| == |ranks|
    decreases |ranks|
  {
    if |ranks| == 0 then []
    else RankStrings(ranks[..|ranks| - 1]) + [NatToString(ranks[|ranks| - 1])]
  }

  /** The k-th rank string is the k-th rank in decimal. */
  lemma {:induction false} RankStringsAt(ranks: seq<nat>, k: nat)
    requires k < |ranks|
    ensures RankStrings(ranks)[k] == NatToString(ranks[k])
    decreases |ranks|
  {
    var n := |ranks|;
    if k < n - 1 {
      RankStringsAt(ranks[..n - 1], k);
    }
  }

  /** Converting one more rank adds its decimal string at the end. */
  lemma RankStringsStep(ranks: seq<nat>, r: nat)
    ensures RankStrings(ranks + [r]) == RankStrings(ranks) + [NatToString(r)]
  {
    assert (ranks + [r])[..|ranks|] == ranks;
  }

  /** The rank string: "0" when no match counts, otherwise the ranks joined by ','. */
  function Render(ranks: seq<nat>): string
  {
    if |ranks| == 0 then "0" else Join(RankStrings(ranks), ',')
  }

  /** Reads a rank string back into positions. */
  function ParseRanks(s: string): seq<nat>
  {
    if s == "0" then []
    else
      var parts := Split(s, ',');
      seq(|parts|, k requires 0 <= k < |parts| => ParseNat(parts[k]))
  }

  predicate AllPositive(ranks: seq<nat>)
  {
    forall k :: 0 <= k < |ranks| ==> ranks[k] > 0
  }

  /** A rank string of positive ranks is never "0". */
  lemma RenderNotZero(ranks: seq<nat>)
    requires |ranks| > 0 && AllPositive(ranks)
    ensures Render(ranks) != "0"
  {
    var strs := RankStrings(ranks);
    RankStringsAt(ranks, 0);
    if |ranks| == 1 {
      if strs[0] == "0" {
        NatToStringZero(ranks[0]);
      }
    } else {
      assert Render(ranks) == strs[0] + [','] + Join(strs[1..], ',');
      assert |Render(ranks)| > 1;
    }
  }

  /** Reading back a rank string gives the ranks it was written from. */
  lemma RenderRoundTrip(ranks: seq<nat>)
    requires AllPositive(ranks)
    ensures ParseRanks(Render(ranks)) == ranks
  {
    if |ranks| > 0 {
      RenderNotZero(ranks);
      var strs := RankStrings(ranks);
      forall k | 0 <= k < |strs|
        ensures ',' !in strs[k]
      {
        RankStringsAt(ranks, k);
        assert !IsDigit(',');
      }
      SplitJoin(strs, ',');
      forall k | 0 <= k < |ranks|
        ensures ParseNat(strs[k]) == ranks[k]
      {
        RankStringsAt(ranks, k);
        ParseNatToString(ranks[k]);
      }
    }
  }

  /** The rank string is never empty and holds only digits and commas (no spaces). */
  lemma RenderAlphabet(ranks: seq<nat>)
    ensures |Render(ranks)| > 0
    ensures forall k :: 0 <= k < |Render(ranks)| ==> IsDigit(Render(ranks)[k]) || Render(ranks)[k] == ','
  {
    var s := Render(ranks);
    if |ranks| > 0 {
      var strs := RankStrings(ranks);
      RankStringsAt(ranks, 0);
      assert |strs[0]| > 0;
      assert |s| >= |strs[0]| by {
        if |strs| > 1 {
          assert s == strs[0] + [','] + Join(strs[1..], ',');
        }
      }
      forall k | 0 <= k < |s|
        ensures IsDigit(s[k]) || s[k] == ','
      {
        JoinAlphabet(strs, ',', s[k]);
        if s[k] != ',' {
          var j :| 0 <= j < |strs| && s[k] in strs[j];
          RankStringsAt(ranks, j);
          var m :| 0 <= m < |strs[j]| && strs[j][m] == s[k];
        }
      }
    }
  }

  /** Read back, the rank string of a page lists its ranks in ascending order. */
  lemma RankStringAscending(links: seq<string>, target: string)
    ensures StrictlyIncreasing(ParseRanks(Render(Ranks(links, target))))
  {
    RenderRoundTrip(Ranks(links, target));
    RanksIncreasing(links, target);
  }

  /**
   * Read back, the rank string of a page holds position r exactly when
   * capture r - 1 contains the target.
   */
  lemma RankStringMembership(links: seq<string>, target: string)
    ensures forall r: nat ::
              r in ParseRanks(Render(Ranks(links, target)))
              <==> 1 <= r <= |links| && Contains(links[r - 1], target)
  {
    var ranks := Ranks(links, target);
    RenderRoundTrip(ranks);
    forall r: nat
      ensures r in ranks <==> 1 <= r <= |links| && Contains(links[r - 1], target)
    {
      RanksMembership(links, target, r);
    }
  }

  /** The rank string of a page is "0" exactly when no capture contains the target. */
  lemma RankStringZeroIff(links: seq<string>, target: string)
    ensures (Render(Ranks(links, target)) == "0")
        <==> (forall i :: 0 <= i < |links| ==> !Contains(links[i], target))
  {
    var ranks := Ranks(links, target);
    RanksEmptyIff(links, target);
    if ranks != [] {
      RenderNotZero(ranks);
    }
  }

  /** A single match on the target is rank "1". */
  lemma SingleMatch(hit: string, target: string)
    requires Contains(hit, target)
    ensures Render(Ranks([hit], target)) == "1"
  {
    assert Ranks([hit], target) == [1];
    assert Render([1]) == NatToString(1);
  }

  /**
   * Numbering counts every match: when only the first and third of three
   * matches carry the target, the result is "1,3", not "1,2".
   */
  lemma InterleavedMatches(hit: string, miss: string, target: string)
    requires Contains(hit, target) && !Contains(miss, target)
    ensures Render(Ranks([hit, miss, hit], target)) == "1,3"
  {
    var links := [hit, miss, hit];
    assert Ranks(links[..1], target) == [1] by {
      assert links[..1][..0] == [];
    }
    assert Ranks(links[..2], target) == [1] by {
      assert links[..2][..1] == links[..1];
    }
    assert Ranks(links, target) == [1, 3] by {
      assert links[..2] == [hit, miss];
      assert links[..3] == links;
    }
    RenderOneThree();
  }

  /** Positions 1 and 3 are written "1,3". */
  lemma RenderOneThree()
    ensures Render([1, 3]) == "1,3"
  {
    RankStringsStep([1], 3);
    assert [1] + [3] == [1, 3];
    assert NatToString(1) == "1" && NatToString(3) == "3";
    assert RankStrings([1, 3]) == ["1", "3"];
    assert Join(["1", "3"], ',') == "1" + [','] + "3";
  }
}
