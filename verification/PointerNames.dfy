/** Giving pointers readable names: an adjective and a noun drawn at random, again
    and again until the pair is one no pointer has. */
module PointerNames {
  import opened Wrappers

  type Pointer = nat

  /** The word lists; an underscore stands between the two words of a name. */
  datatype Words = Words(adjectives: seq<string>, nouns: seq<string>)

  function LowerChar(c: char): char {
    if 'A' <= c <= 'Z' then c - 'A' + 'a' else c
  }

  function Lower(s: string): (r: string)
    ensures |r| == |s| && forall i :: 0 <= i < |s| ==> r[i] == LowerChar(s[i])
  {
    if s == "" then "" else [LowerChar(s[0])] + Lower(s[1..])
  }

  /** No two adjectives are equal and no two nouns differ only in case, and no
      adjective contains the separator. */
  predicate Good(w: Words) {
    w.adjectives != [] && w.nouns != []
    && (forall i, j :: 0 <= i < j < |w.adjectives| ==> w.adjectives[i] != w.adjectives[j])
    && (forall i, j :: 0 <= i < j < |w.nouns| ==> Lower(w.nouns[i]) != Lower(w.nouns[j]))
    && (forall i :: 0 <= i < |w.adjectives| ==> '_' !in w.adjectives[i])
  }

  function Count(w: Words): nat {
    |w.adjectives| * |w.nouns|
  }

  function NameOf(w: Words, index: nat): string
    requires Good(w)
  {
    w.adjectives[index % |w.adjectives|] + "_" + Lower(w.nouns[index / |w.adjectives| % |w.nouns|])
  }

  // ----- Indices and names

  lemma SeparatorFirst(a: string, b: string, c: string, d: string)
    requires '_' !in a && '_' !in c && a + "_" + b == c + "_" + d
    ensures a == c && b == d
  {
    var s := a + "_" + b;
    assert s[|a|] == '_' && s[|c|] == '_';
    assert forall k :: 0 <= k < |a| ==> s[k] in a;
    assert forall k :: 0 <= k < |c| ==> s[k] in c;
    assert |a| == |c|;
    assert s[..|a|] == a && s[..|c|] == c;
    assert s[|a| + 1..] == b && s[|c| + 1..] == d;
  }

  lemma QuotientInRange(index: nat, a: nat, n: nat)
    requires a > 0 && index < a * n
    ensures index / a < n
  {
    assert index == a * (index / a) + index % a;
    if index / a >= n {
      MulLe(n, index / a, a);
    }
  }

  lemma MulLe(x: nat, y: nat, a: nat)
    requires x <= y
    ensures a * x <= a * y
  {}

  lemma NameParts(w: Words, i: nat) returns (x: nat, y: nat)
    requires Good(w) && i < Count(w)
    ensures x < |w.adjectives| && y < |w.nouns| && i == |w.adjectives| * y + x
    ensures NameOf(w, i) == w.adjectives[x] + "_" + Lower(w.nouns[y])
  {
    var a, n := |w.adjectives|, |w.nouns|;
    QuotientInRange(i, a, n);
    Small(i / a, n);
    x, y := i % a, i / a;
  }

  lemma Small(x: nat, n: nat)
    requires x < n
    ensures x % n == x
  {}

  /** Below the number of pairs the indices and the names are one to one. */
  lemma NamesDiffer(w: Words, i: nat, j: nat)
    requires Good(w) && i < Count(w) && j < Count(w) && NameOf(w, i) == NameOf(w, j)
    ensures i == j
  {
    var x, y := NameParts(w, i);
    var x', y' := NameParts(w, j);
    hide Good, NameOf, Count;
    SamePair(w, x, y, x', y');
  }

  lemma SamePair(w: Words, x: nat, y: nat, x': nat, y': nat)
    requires Good(w) && x < |w.adjectives| && x' < |w.adjectives| && y < |w.nouns| && y' < |w.nouns|
    requires w.adjectives[x] + "_" + Lower(w.nouns[y]) == w.adjectives[x'] + "_" + Lower(w.nouns[y'])
    ensures x == x' && y == y'
  {
    SeparatorFirst(w.adjectives[x], Lower(w.nouns[y]), w.adjectives[x'], Lower(w.nouns[y']));
  }

  function FirstNames(w: Words, n: nat): set<string>
    requires Good(w)
  {
    set i | 0 <= i < n :: NameOf(w, i)
  }

  lemma {:induction false} NamesCounted(w: Words, n: nat)
    requires Good(w) && n <= Count(w)
    ensures |FirstNames(w, n)| == n
  {
    hide NameOf, Count, Good;
    if n == 0 {
      assert FirstNames(w, n) == {};
    } else {
      NamesCounted(w, n - 1);
      assert FirstNames(w, n) == FirstNames(w, n - 1) + {NameOf(w, n - 1)};
      if NameOf(w, n - 1) in FirstNames(w, n - 1) {
        var i :| 0 <= i < n - 1 && NameOf(w, i) == NameOf(w, n - 1);
        NamesDiffer(w, i, n - 1);
      }
    }
  }

  predicate IsFresh(w: Words, used: set<string>, index: nat)
    requires Good(w)
  {
    index < Count(w) && NameOf(w, index) !in used
  }

  lemma SubsetCount(a: set<string>, b: set<string>)
    requires a <= b
    ensures |b| == |a| + |b - a|
  {
    assert b == a + (b - a);
  }

  // ----- The table of names

  datatype State = State(names: map<Pointer, string>, used: set<string>)

  /** The used names are those in the table, each belongs to one pointer, and
      each is a pair of words. */
  predicate Inv(w: Words, s: State)
    requires Good(w)
  {
    s.used == s.names.Values
    && (forall p, q :: p in s.names && q in s.names && s.names[p] == s.names[q] ==> p == q)
    && s.used <= FirstNames(w, Count(w))
  }

  /** The table after a call that drew the given name; a pointer with a name
      keeps it. */
  function Named(s: State, p: Pointer, name: string): State {
    if p in s.names then s else State(s.names[p := name], s.used + {name})
  }

  lemma NamedKeepsInv(w: Words, s: State, p: Pointer, index: nat)
    requires Good(w) && Inv(w, s) && IsFresh(w, s.used, index)
    ensures Inv(w, Named(s, p, NameOf(w, index)))
  {
    if p !in s.names {
      var name := NameOf(w, index);
      var t := s.names[p := name];
      assert name in FirstNames(w, Count(w));
      forall x ensures x in t.Values <==> x in s.used + {name} {
        if x in s.used {
          var q :| q in s.names && s.names[q] == x;
          assert t[q] == x;
        }
        assert t[p] == name;
      }
      forall q | q in s.names ensures s.names[q] != name {
        assert s.names[q] in s.names.Values;
      }
    }
  }

  lemma {:induction false} ValuesCount(names: map<Pointer, string>)
    requires forall p, q :: p in names && q in names && names[p] == names[q] ==> p == q
    ensures |names.Values| == |names|
  {
    if names == map[] {
      assert names.Values == {};
    } else {
      var p := Member(names.Keys);
      var rest := names - {p};
      ValuesCount(rest);
      assert names.Values == rest.Values + {names[p]} by {
        forall x | x in names.Values ensures x in rest.Values + {names[p]} {
          var q :| q in names && names[q] == x;
          assert q == p || (q in rest && rest[q] == x);
        }
      }
      assert names[p] !in rest.Values;
      assert names.Keys == rest.Keys + {p};
      assert |names.Keys| == |names| && |rest.Keys| == |rest|;
    }
  }

  /** A name is left to draw exactly while fewer pointers are named than there
      are pairs of words. */
  lemma FreshExistsIff(w: Words, s: State)
    requires Good(w) && Inv(w, s)
    ensures (exists index: nat :: IsFresh(w, s.used, index)) <==> |s.names| < Count(w)
  {
    hide NameOf, Count, Good;
    var all := FirstNames(w, Count(w));
    NamesCounted(w, Count(w));
    ValuesCount(s.names);
    SubsetCount(s.used, all);
    if index: nat :| IsFresh(w, s.used, index) {
      assert NameOf(w, index) in all - s.used;
    }
    if |s.names| < Count(w) {
      var name := Member(all - s.used);
      var i :| 0 <= i < Count(w) && NameOf(w, i) == name;
      assert IsFresh(w, s.used, i);
    }
  }

  // ----- The logger

  class PointerNamer {
    const words: Words
    /** The random stream: the n-th draw, before it is cut to the range. */
    const draws: nat -> nat
    var pointerNames: map<Pointer, string>
    var pointerNamesUsed: set<string>
    var drawn: nat

    ghost predicate Valid()
      reads this
    {
      Good(words) && Inv(words, Abs())
    }

    ghost function Abs(): State
      reads this
    {
      State(pointerNames, pointerNamesUsed)
    }

    constructor (words: Words, draws: nat -> nat)
      requires Good(words)
      ensures Valid() && this.words == words && this.draws == draws && drawn == 0
      ensures Abs() == State(map[], {})
    {
      this.words, this.draws := words, draws;
      pointerNames, pointerNamesUsed, drawn := map[], {}, 0;
    }

    function IndexAt(n: nat): (r: nat)
      requires Good(words)
      ensures r < Count(words)
    {
      Positive(|words.adjectives|, |words.nouns|);
      draws(n) % Count(words)
    }

    /** Draws until a pair is new; None if `patience` draws were not enough. A
        result is there exactly when the pointer has a name or one of the draws
        is fresh, and the first fresh one is taken. */
    method GenerateName(p: Pointer, patience: nat) returns (r: Option<string>)
      requires Valid()
      modifies this
      ensures Valid()
      ensures p in old(pointerNames) ==> r == Some(old(pointerNames)[p]) && Abs() == old(Abs())
      ensures p !in old(pointerNames) ==>
        (r.Some? <==>
           exists n :: old(drawn) <= n < old(drawn) + patience && IsFresh(words, old(pointerNamesUsed), IndexAt(n)))
      ensures r.None? ==> Abs() == old(Abs())
      ensures r.Some? ==> Abs() == Named(old(Abs()), p, r.value) && p in pointerNames && pointerNames[p] == r.value
      ensures r.Some? && p !in old(pointerNames) ==>
        drawn > old(drawn) && r.value == NameOf(words, IndexAt(drawn - 1))
    {
      hide NameOf, Count, FirstNames, Good, Inv;
      if p in pointerNames {
        return Some(pointerNames[p]);
      }
      for k := 0 to patience
        invariant Valid() && Abs() == old(Abs()) && drawn == old(drawn) + k
        invariant forall n :: old(drawn) <= n < drawn ==> !IsFresh(words, old(pointerNamesUsed), IndexAt(n))
      {
        var index := IndexAt(drawn);
        drawn := drawn + 1;
        var name := NameOf(words, index);
        if name in pointerNamesUsed {
          continue;
        }
        NamedKeepsInv(words, Abs(), p, index);
        pointerNamesUsed := pointerNamesUsed + {name};
        pointerNames := pointerNames[p := name];
        assert IsFresh(words, old(pointerNamesUsed), IndexAt(drawn - 1));
        return Some(name);
      }
      return None;
    }
  }

  lemma Positive(a: nat, b: nat)
    requires a > 0 && b > 0
    ensures a * b > 0
  {}
}
