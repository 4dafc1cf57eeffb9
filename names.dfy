/** File names as the two tools see them: the case-insensitive extension
    test (`name.lower().endswith(exts)`), the selection of a directory
    listing by that test, a count of the selected names, and Python's plain
    `sorted` order on strings (code point by code point, a proper prefix
    first). */
module Names {

  /** Lower-cases one character. Only `A`..`Z` are mapped. */
  function LowerChar(c: char): (r: char)
  {
    if 'A' <= c <= 'Z' then (c as int + 32) as char else c
  }

  /** `s.lower()`, character by character. */
  function Lower(s: string): (r: string)
  {
    seq(|s|, i requires 0 <= i < |s| => LowerChar(s[i]))
  }

  predicate EndsWith(s: string, suffix: string)
  {
    |suffix| <= |s| && s[|s| - |suffix|..] == suffix
  }

  /** `s.endswith(suffixes)` for a tuple of suffixes. */
  predicate EndsWithAny(s: string, suffixes: seq<string>)
  {
    exists k :: 0 <= k < |suffixes| && EndsWith(s, suffixes[k])
  }

  /** The extension test both tools use: `name.lower().endswith(exts)`. */
  predicate HasExtension(name: string, exts: seq<string>)
  {
    EndsWithAny(Lower(name), exts)
  }

  /** Lower-casing twice is lower-casing once. */
  lemma LowerIdempotent(s: string)
    ensures Lower(Lower(s)) == Lower(s)
  {
  }

  /** The extension test ignores case: two names that agree once lowered,
      character by character, pass or fail it together. */
  lemma CaseBlind(a: string, b: string, exts: seq<string>)
    requires |a| == |b|
    requires forall i :: 0 <= i < |a| ==> LowerChar(a[i]) == LowerChar(b[i])
    ensures HasExtension(a, exts) <==> HasExtension(b, exts)
  {
    assert Lower(a) == Lower(b);
  }

  /** The names of `listing` that pass the extension test, in listing order. */
  function Select(listing: seq<string>, exts: seq<string>): (r: seq<string>)
    ensures |r| <= |listing|
    ensures forall x :: x in r ==> x in listing && HasExtension(x, exts)
  {
    if |listing| == 0 then []
    else if HasExtension(listing[0], exts) then [listing[0]] + Select(listing[1..], exts)
    else Select(listing[1..], exts)
  }

  /** `sum(1 for f in listing if f.lower().endswith(exts))`. */
  function CountSelected(listing: seq<string>, exts: seq<string>): (n: nat)
    ensures n <= |listing|
  {
    if |listing| == 0 then 0
    else (if HasExtension(listing[0], exts) then 1 else 0) + CountSelected(listing[1..], exts)
  }

  /** A name is selected exactly when it is in the listing and passes the test. */
  lemma {:induction false} SelectMembership(listing: seq<string>, exts: seq<string>, x: string)
    ensures x in Select(listing, exts) <==> x in listing && HasExtension(x, exts)
  {
    if |listing| > 0 {
      SelectMembership(listing[1..], exts, x);
      assert listing == [listing[0]] + listing[1..];
    }
  }

  /** The count taken before a run equals the number of names the run selects. */
  lemma {:induction false} CountIsSelectLength(listing: seq<string>, exts: seq<string>)
    ensures CountSelected(listing, exts) == |Select(listing, exts)|
  {
    if |listing| > 0 {
      CountIsSelectLength(listing[1..], exts);
    }
  }

  lemma {:induction false} CountSelectedAppend(a: seq<string>, b: seq<string>, exts: seq<string>)
    ensures CountSelected(a + b, exts) == CountSelected(a, exts) + CountSelected(b, exts)
  {
    if |a| == 0 {
      assert a + b == b;
    } else {
      assert (a + b)[1..] == a[1..] + b;
      CountSelectedAppend(a[1..], b, exts);
    }
  }

  /** Python's `<=` on `str`: code points compared left to right, and a
      proper prefix before the longer string. */
  predicate LexLe(a: string, b: string)
    decreases |a|
  {
    if |a| == 0 then true
    else if |b| == 0 then false
    else if a[0] != b[0] then a[0] < b[0]
    else LexLe(a[1..], b[1..])
  }

  lemma {:induction false} LexLeTotal(a: string, b: string)
    ensures LexLe(a, b) || LexLe(b, a)
    decreases |a|
  {
    if |a| > 0 && |b| > 0 && a[0] == b[0] {
      LexLeTotal(a[1..], b[1..]);
    }
  }

  lemma {:induction false} LexLeAntisymmetric(a: string, b: string)
    requires LexLe(a, b) && LexLe(b, a)
    ensures a == b
    decreases |a|
  {
    if |a| > 0 && |b| > 0 {
      LexLeAntisymmetric(a[1..], b[1..]);
      assert a == [a[0]] + a[1..] && b == [b[0]] + b[1..];
    }
  }

  lemma {:induction false} LexLeTransitive(a: string, b: string, c: string)
    requires LexLe(a, b) && LexLe(b, c)
    ensures LexLe(a, c)
    decreases |a|
  {
    if |a| > 0 && |b| > 0 && |c| > 0 && a[0] == b[0] && b[0] == c[0] {
      LexLeTransitive(a[1..], b[1..], c[1..]);
    }
  }

  predicate Sorted(s: seq<string>)
  {
    forall i, j :: 0 <= i < j < |s| ==> LexLe(s[i], s[j])
  }

  /** Inserts `x` in front of the first element it does not exceed. */
  function Insert(x: string, s: seq<string>): (r: seq<string>)
    ensures |r| == |s| + 1
  {
    if |s| == 0 then [x]
    else if LexLe(x, s[0]) then [x] + s
    else [s[0]] + Insert(x, s[1..])
  }

  /** `sorted(names)` on a list of strings. */
  function Sort(s: seq<string>): (r: seq<string>)
    ensures |r| == |s|
  {
    if |s| == 0 then [] else Insert(s[0], Sort(s[1..]))
  }

  lemma {:induction false} LexLeReflexive(a: string)
    ensures LexLe(a, a)
    decreases |a|
  {
    if |a| > 0 {
      LexLeReflexive(a[1..]);
    }
  }

  /** A sorted sequence stays sorted under a head that precedes all of it. */
  lemma SortedCons(h: string, t: seq<string>)
    requires Sorted(t)
    requires forall j :: 0 <= j < |t| ==> LexLe(h, t[j])
    ensures Sorted([h] + t)
  {
    var r := [h] + t;
    forall i, j | 0 <= i < j < |r| ensures LexLe(r[i], r[j]) {
      if i == 0 {
        assert r[j] == t[j - 1];
      } else {
        assert r[i] == t[i - 1] && r[j] == t[j - 1];
      }
    }
  }

  lemma {:induction false} InsertMultiset(x: string, s: seq<string>)
    ensures multiset(Insert(x, s)) == multiset(s) + multiset{x}
  {
    if |s| > 0 {
      assert s == [s[0]] + s[1..];
      if !LexLe(x, s[0]) {
        InsertMultiset(x, s[1..]);
      }
    }
  }

  lemma {:induction false} InsertCorrect(x: string, s: seq<string>)
    requires Sorted(s)
    ensures Sorted(Insert(x, s))
    ensures multiset(Insert(x, s)) == multiset(s) + multiset{x}
  {
    InsertMultiset(x, s);
    if |s| == 0 {
    } else if LexLe(x, s[0]) {
      forall j | 0 <= j < |s| ensures LexLe(x, s[j]) {
        if j > 0 {
          LexLeTransitive(x, s[0], s[j]);
        }
      }
      SortedCons(x, s);
    } else {
      assert Sorted(s[1..]);
      InsertCorrect(x, s[1..]);
      var t := Insert(x, s[1..]);
      LexLeTotal(x, s[0]);
      forall j | 0 <= j < |t| ensures LexLe(s[0], t[j]) {
        assert t[j] in multiset(t);
        if t[j] != x {
          assert t[j] in multiset(s[1..]);
          var k :| 0 <= k < |s[1..]| && s[1..][k] == t[j];
          assert s[k + 1] == t[j];
        }
      }
      SortedCons(s[0], t);
    }
  }

  /** `Sort` is an ordered permutation of its argument. */
  lemma {:induction false} SortCorrect(s: seq<string>)
    ensures Sorted(Sort(s))
    ensures multiset(Sort(s)) == multiset(s)
  {
    if |s| > 0 {
      SortCorrect(s[1..]);
      InsertCorrect(s[0], Sort(s[1..]));
      assert s == [s[0]] + s[1..];
    }
  }

  /** The head of a sorted sequence precedes each of its elements. */
  lemma SortedHeadFirst(a: seq<string>, x: string)
    requires Sorted(a) && x in a
    ensures LexLe(a[0], x)
  {
    var i :| 0 <= i < |a| && a[i] == x;
    if i == 0 {
      LexLeReflexive(x);
    }
  }

  /** Two ordered permutations of one multiset are equal; so `Sort` is the
      only order `sorted` can produce, whatever algorithm it uses. */
  lemma {:induction false} SortedUnique(a: seq<string>, b: seq<string>)
    requires Sorted(a) && Sorted(b)
    requires multiset(a) == multiset(b)
    ensures a == b
  {
    if |a| == 0 {
      assert |multiset(b)| == 0;
    } else {
      assert |b| > 0 by {
        assert a[0] in multiset(b);
      }
      assert a[0] == b[0] by {
        assert a[0] in multiset(b) && b[0] in multiset(a);
        SortedHeadFirst(a, b[0]);
        SortedHeadFirst(b, a[0]);
        LexLeAntisymmetric(a[0], b[0]);
      }
      assert multiset(a[1..]) == multiset(b[1..]) by {
        assert a == [a[0]] + a[1..] && b == [b[0]] + b[1..];
        assert multiset(a[1..]) == multiset(a) - multiset{a[0]};
        assert multiset(b[1..]) == multiset(b) - multiset{b[0]};
      }
      SortedUnique(a[1..], b[1..]);
      assert a == [a[0]] + a[1..] && b == [b[0]] + b[1..];
    }
  }
}
