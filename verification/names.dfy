/** The display-name generator: a fixed pool of twenty words and one counter
    per word.  Each call picks a word, bumps its counter and returns
    `lowercase(word)-count`.  The random pick is an input: the index of the
    chosen pool word. */
module Names {
  import opened Wrappers
  import opened Text
  import Sequences

  const NamePool: seq<string> := [
    "Sunset", "Mountain", "Beach", "Forest", "Cityscape",
    "Portrait", "Pet", "Food", "Flower", "Building",
    "Lake", "Art", "Landscape", "Tree", "Cloud",
    "River", "Snow", "Sand", "Road", "Horizon"
  ]

  /** `nameCount`: how many names each word has produced so far. */
  type Counters = map<string, nat>

  /** `nameCount[word, default: 0]`. */
  function CountOf(counts: Counters, word: string): nat
  {
    if word in counts then counts[word] else 0
  }

  /** The name printed for the `count`-th use of `word`. */
  function Render(word: string, count: nat): string
  {
    Lower(word) + "-" + Decimal(count)
  }

  /** The pool is never empty, so the fallback word is never used: the pick
      is always a pool word. */
  lemma PoolNonEmpty()
    ensures |NamePool| == 20
  {
  }

  /** Every pool word is a capitalised ASCII word. */
  lemma PoolCapitalised()
    ensures forall i :: 0 <= i < |NamePool| ==> Capitalised(NamePool[i])
  {
  }

  lemma PoolWordCapitalised(i: nat)
    requires i < |NamePool|
    ensures Capitalised(NamePool[i])
  {
    PoolCapitalised();
  }

  /** `generateRandomName`: bump the chosen word's counter by one, leave every
      other counter alone, and name the result after the updated count. */
  function GenerateName(counts: Counters, pick: nat): (r: (string, Counters))
    requires pick < |NamePool|
    ensures var word := NamePool[pick];
            && word in r.1
            && r.1[word] == CountOf(counts, word) + 1
            && r.0 == Render(word, r.1[word])
    ensures forall w :: w != NamePool[pick] ==> (w in r.1 <==> w in counts)
    ensures forall w :: w in counts && w != NamePool[pick] ==> r.1[w] == counts[w]
  {
    var word := NamePool[pick];
    var counts' := counts[word := CountOf(counts, word) + 1];
    (Render(word, counts'[word]), counts')
  }

  // ---------------------------------------------------------------------------
  // Shape of a generated name

  /** `s` is lower-case letters up to index `k`, a dash at `k`, and then a
      decimal number without a leading zero. */
  predicate ShapedAt(s: string, k: nat)
  {
    && 0 < k && k + 1 < |s|
    && (forall j :: 0 <= j < k ==> IsLower(s[j]))
    && s[k] == '-'
    && s[k + 1] != '0'
    && (forall j :: k < j < |s| ==> IsDigit(s[j]))
  }

  /** `^[a-z]+-[1-9][0-9]*$`. */
  ghost predicate WellFormedName(s: string)
  {
    exists k: nat :: ShapedAt(s, k)
  }

  /** Every generated name has the documented shape. */
  lemma GeneratedNameWellFormed(counts: Counters, pick: nat)
    requires pick < |NamePool|
    ensures WellFormedName(GenerateName(counts, pick).0)
  {
    var word := NamePool[pick];
    PoolWordCapitalised(pick);
    LowerOfCapitalised(word);
    var name := GenerateName(counts, pick).0;
    var counts' := GenerateName(counts, pick).1;
    var k := |Lower(word)|;
    var digits := Decimal(counts'[word]);
    assert name == Lower(word) + "-" + digits;
    assert forall j :: 0 <= j < k ==> name[j] == Lower(word)[j];
    assert forall j :: k < j < |name| ==> name[j] == digits[j - k - 1];
    assert ShapedAt(name, k);
  }

  predicate IsDash(c: char) { c == '-' }

  /** Splits a name at its first dash and reads the digits after it. */
  function ParseName(s: string): (r: Option<(string, nat)>)
  {
    var dash := Sequences.FirstIndex(s, IsDash);
    if dash.None? then None
    else
      var k := dash.value;
      if AllDigits(s[k + 1..]) then Some((s[..k], ParseDecimal(s[k + 1..]))) else None
  }

  /** A name made from a pool word parses back to the lowered word and the
      counter value. */
  lemma ParseRender(word: string, count: nat)
    requires Capitalised(word)
    ensures ParseName(Render(word, count)) == Some((Lower(word), count))
  {
    var s := Render(word, count);
    var k := |Lower(word)|;
    LowerOfCapitalised(word);
    assert forall j :: 0 <= j < k ==> s[j] == Lower(word)[j];
    assert s[k] == '-';
    var f := Sequences.FirstIndex(s, IsDash);
    assert f == Some(k);
    assert s[..k] == Lower(word);
    assert s[k + 1..] == Decimal(count);
    ParseDecimalRoundTrip(count);
  }

  /** Different (word, count) pairs drawn from the pool never print the same
      name. */
  lemma RenderInjective(word: string, count: nat, word': string, count': nat)
    requires Capitalised(word) && Capitalised(word')
    requires Render(word, count) == Render(word', count')
    ensures word == word' && count == count'
  {
    ParseRender(word, count);
    ParseRender(word', count');
    LowerInjectiveOnCapitalised(word, word');
  }

  // ---------------------------------------------------------------------------
  // Runs of several generations

  predicate ValidPicks(picks: seq<nat>)
  {
    forall i :: 0 <= i < |picks| ==> picks[i] < |NamePool|
  }

  /** Generates one name per pick, threading the counters through. */
  function GenerateRun(counts: Counters, picks: seq<nat>): (r: (seq<string>, Counters))
    requires ValidPicks(picks)
    ensures |r.0| == |picks|
    decreases |picks|
  {
    if |picks| == 0 then ([], counts)
    else
      var first := GenerateName(counts, picks[0]);
      var rest := GenerateRun(first.1, picks[1..]);
      ([first.0] + rest.0, rest.1)
  }

  /** Counters never go down, and no word loses its counter. */
  lemma {:induction false} RunCountersMonotone(counts: Counters, picks: seq<nat>)
    requires ValidPicks(picks)
    ensures forall w :: w in counts ==> w in GenerateRun(counts, picks).1
    ensures forall w :: CountOf(counts, w) <= CountOf(GenerateRun(counts, picks).1, w)
    decreases |picks|
  {
    if |picks| > 0 {
      var counts' := GenerateName(counts, picks[0]).1;
      RunCountersMonotone(counts', picks[1..]);
    }
  }

  /** Every name in a run uses a count above the one its word had when the
      run started. */
  lemma {:induction false} RunNamesAbove(counts: Counters, picks: seq<nat>)
    requires ValidPicks(picks)
    ensures forall k :: 0 <= k < |picks| ==>
              exists n :: n > CountOf(counts, NamePool[picks[k]])
                          && GenerateRun(counts, picks).0[k] == Render(NamePool[picks[k]], n)
    decreases |picks|
  {
    if |picks| > 0 {
      var first := GenerateName(counts, picks[0]);
      var counts' := first.1;
      var rest := GenerateRun(counts', picks[1..]).0;
      RunNamesAbove(counts', picks[1..]);
      var names := GenerateRun(counts, picks).0;
      assert names == [first.0] + rest;
      forall k | 0 <= k < |picks|
        ensures exists n :: n > CountOf(counts, NamePool[picks[k]])
                            && names[k] == Render(NamePool[picks[k]], n)
      {
        var w := NamePool[picks[k]];
        if k == 0 {
          var n := counts'[w];
          assert n == CountOf(counts, w) + 1;
          assert names[0] == Render(w, n);
        } else {
          assert k - 1 < |picks[1..]| && picks[1..][k - 1] == picks[k];
          var n :| n > CountOf(counts', w) && rest[k - 1] == Render(w, n);
          assert CountOf(counts, w) <= CountOf(counts', w);
          assert names[k] == rest[k - 1];
        }
      }
    }
  }

  /** The count printed in the `k`-th name of a run: one more than the
      counter of its word after the first `k` generations. */
  function RunCount(counts: Counters, picks: seq<nat>, k: nat): nat
    requires ValidPicks(picks) && k < |picks|
  {
    CountOf(GenerateRun(counts, picks[..k]).1, NamePool[picks[k]]) + 1
  }

  /** The `k`-th step of a run is one generation from the counters the first
      `k` steps left behind. */
  lemma {:induction false} RunPrefixStep(counts: Counters, picks: seq<nat>, k: nat)
    requires ValidPicks(picks) && k < |picks|
    ensures var before := GenerateRun(counts, picks[..k]).1;
            && GenerateRun(counts, picks).0[k] == GenerateName(before, picks[k]).0
            && GenerateRun(counts, picks[..k + 1]).1 == GenerateName(before, picks[k]).1
    decreases k
  {
    var counts' := GenerateName(counts, picks[0]).1;
    if k == 0 {
      assert picks[..0] == [];
      assert picks[..1] == [picks[0]] && picks[..1][1..] == [];
    } else {
      RunPrefixStep(counts', picks[1..], k - 1);
      assert picks[..k][0] == picks[0] && picks[..k][1..] == picks[1..][..k - 1];
      assert picks[..k + 1][0] == picks[0] && picks[..k + 1][1..] == picks[1..][..k];
    }
  }

  /** Along the prefixes of a run the counters never go down. */
  lemma {:induction false} PrefixCountersMonotone(counts: Counters, picks: seq<nat>, a: nat, b: nat)
    requires ValidPicks(picks) && a <= b <= |picks|
    ensures forall w :: CountOf(GenerateRun(counts, picks[..a]).1, w) <= CountOf(GenerateRun(counts, picks[..b]).1, w)
    decreases b
  {
    if a < b {
      PrefixCountersMonotone(counts, picks, a, b - 1);
      RunPrefixStep(counts, picks, b - 1);
    }
  }

  /** The `k`-th name of a run prints its word with `RunCount`, which lies
      above the count that word had when the run began. */
  lemma RunCountNamed(counts: Counters, picks: seq<nat>, k: nat)
    requires ValidPicks(picks) && k < |picks|
    ensures GenerateRun(counts, picks).0[k] == Render(NamePool[picks[k]], RunCount(counts, picks, k))
    ensures RunCount(counts, picks, k) > CountOf(counts, NamePool[picks[k]])
  {
    RunPrefixStep(counts, picks, k);
    PrefixCountersMonotone(counts, picks, 0, k);
    assert picks[..0] == [];
  }

  /** A word drawn twice in a run gets a strictly larger count the second
      time. */
  lemma SameWordIncreasing(counts: Counters, picks: seq<nat>, i: nat, j: nat)
    requires ValidPicks(picks) && i < j < |picks| && picks[i] == picks[j]
    ensures RunCount(counts, picks, i) < RunCount(counts, picks, j)
  {
    RunPrefixStep(counts, picks, i);
    PrefixCountersMonotone(counts, picks, i + 1, j);
  }

  /** No two positions of `s` hold the same value. */
  predicate Distinct(s: seq<string>)
  {
    forall i, j :: 0 <= i < j < |s| ==> s[i] != s[j]
  }

  /** The first name of a run differs from every later one. */
  lemma FirstNameFresh(counts: Counters, picks: seq<nat>, j: nat)
    requires ValidPicks(picks) && 0 < j < |picks|
    ensures GenerateRun(counts, picks).0[0] != GenerateRun(counts, picks).0[j]
  {
    var w := NamePool[picks[0]];
    var counts' := GenerateName(counts, picks[0]).1;
    var rest := GenerateRun(counts', picks[1..]).0;
    RunNamesAbove(counts', picks[1..]);
    assert j - 1 < |picks[1..]|;
    var w' := NamePool[picks[1..][j - 1]];
    var n :| n > CountOf(counts', w') && rest[j - 1] == Render(w', n);
    assert GenerateRun(counts, picks).0[j] == rest[j - 1];
    PoolWordCapitalised(picks[0]);
    PoolWordCapitalised(picks[1..][j - 1]);
    if Render(w, counts'[w]) == Render(w', n) {
      RenderInjective(w, counts'[w], w', n);
    }
  }

  /** The names of a run are pairwise distinct: a word's suffix strictly
      grows, and different words print different prefixes. */
  lemma {:induction false} RunNamesDistinct(counts: Counters, picks: seq<nat>)
    requires ValidPicks(picks)
    ensures Distinct(GenerateRun(counts, picks).0)
    decreases |picks|
  {
    if |picks| > 0 {
      var counts' := GenerateName(counts, picks[0]).1;
      var rest := GenerateRun(counts', picks[1..]).0;
      RunNamesDistinct(counts', picks[1..]);
      var names := GenerateRun(counts, picks).0;
      assert names[1..] == rest;
      forall i, j | 0 <= i < j < |names|
        ensures names[i] != names[j]
      {
        if i == 0 {
          FirstNameFresh(counts, picks, j);
        } else {
          assert names[i] == rest[i - 1] && names[j] == rest[j - 1];
        }
      }
    }
  }
}
