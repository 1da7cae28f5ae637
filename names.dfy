/** Case-insensitive name ordering: `String#downcase`, `String#<=>`,
    `Array#sort!` and `Array#index`, and the closed form of the position of a
    name among the salon's calendar names. */
module Names {
  import opened RubyValues

  // ---------------------------------------------------------------------
  // downcase

  /** ASCII case folding of one character. */
  function LowerChar(c: char): char {
    if 'A' <= c <= 'Z' then (c as int - 'A' as int + 'a' as int) as char else c
  }

  /** `s.downcase`, restricted to ASCII letters. */
  function Lower(s: string): (r: string)
    ensures |r| == |s|
    ensures forall i :: 0 <= i < |r| ==> !('A' <= r[i] <= 'Z')
    ensures forall i :: 0 <= i < |r| ==> (r[i] == s[i] || ('A' <= s[i] <= 'Z' && r[i] as int == s[i] as int + 32))
  {
    seq(|s|, i requires 0 <= i < |s| => LowerChar(s[i]))
  }

  /** `names.map(&:downcase)`. */
  function LowerAll(names: seq<string>): (r: seq<string>)
    ensures |r| == |names|
    ensures forall i :: 0 <= i < |r| ==> r[i] == Lower(names[i])
  {
    seq(|names|, i requires 0 <= i < |names| => Lower(names[i]))
  }

  lemma LowerAllConcat(a: seq<string>, b: seq<string>)
    ensures LowerAll(a + b) == LowerAll(a) + LowerAll(b)
  {
  }

  /** Taking the first entry off one list and a matching entry off a
      permutation of it leaves permutations of each other. */
  lemma RemoveMatching(s: seq<string>, t: seq<string>, k: nat)
    requires multiset(s) == multiset(t)
    requires s != [] && k < |t| && t[k] == s[0]
    ensures multiset(s[1..]) == multiset(t[..k] + t[k + 1..])
  {
    assert s == [s[0]] + s[1..];
    assert t == t[..k] + [t[k]] + t[k + 1..];
    calc {
      multiset(s[1..]);
      multiset(s) - multiset{s[0]};
      multiset(t) - multiset{s[0]};
      multiset(t[..k]) + multiset(t[k + 1..]);
      multiset(t[..k] + t[k + 1..]);
    }
  }

  /** Lowercasing a list keeps it a permutation of the lowercased other list. */
  lemma {:induction false} LowerAllPermutation(s: seq<string>, t: seq<string>)
    requires multiset(s) == multiset(t)
    ensures multiset(LowerAll(s)) == multiset(LowerAll(t))
    decreases |s|
  {
    if s == [] {
      assert t == [];
    } else {
      var x := s[0];
      assert x in multiset(t);
      var k :| 0 <= k < |t| && t[k] == x;
      var rest := t[..k] + t[k + 1..];
      assert t == t[..k] + [x] + t[k + 1..];
      assert s == [x] + s[1..];
      RemoveMatching(s, t, k);
      LowerAllPermutation(s[1..], rest);
      LowerAllConcat([x], s[1..]);
      LowerAllConcat(t[..k], [x]);
      LowerAllConcat(t[..k] + [x], t[k + 1..]);
      LowerAllConcat(t[..k], t[k + 1..]);
    }
  }

  // ---------------------------------------------------------------------
  // String#<=>: lexicographic order on characters

  /** `a < b` for Ruby strings: the first differing character decides, and a
      proper prefix comes first. On code points this is the byte order of
      their UTF-8 encodings, which is what Ruby compares. */
  predicate Below(a: string, b: string) {
    if a == [] then b != []
    else if b == [] then false
    else if a[0] != b[0] then a[0] < b[0]
    else Below(a[1..], b[1..])
  }

  /** A proper prefix comes first. */
  lemma {:induction false} BelowProperPrefix(a: string, b: string)
    requires |a| < |b| && a == b[..|a|]
    ensures Below(a, b)
  {
    if a != [] {
      assert a[0] == b[0];
      assert a[1..] == b[1..][..|a| - 1];
      BelowProperPrefix(a[1..], b[1..]);
    }
  }

  /** After a common prefix, the first differing character decides. */
  lemma {:induction false} BelowFirstDifference(a: string, b: string, k: nat)
    requires k < |a| && k < |b| && a[..k] == b[..k] && a[k] != b[k]
    ensures Below(a, b) <==> a[k] < b[k]
  {
    if k > 0 {
      assert a[0] == a[..k][0] == b[..k][0] == b[0];
      assert a[1..][..k - 1] == a[..k][1..] == b[..k][1..] == b[1..][..k - 1];
      BelowFirstDifference(a[1..], b[1..], k - 1);
    }
  }

  lemma {:induction false} BelowIrreflexive(a: string)
    ensures !Below(a, a)
  {
    if a != [] {
      BelowIrreflexive(a[1..]);
    }
  }

  lemma {:induction false} BelowTransitive(a: string, b: string, c: string)
    requires Below(a, b) && Below(b, c)
    ensures Below(a, c)
  {
    if a != [] && b != [] && c != [] && a[0] == b[0] && b[0] == c[0] {
      BelowTransitive(a[1..], b[1..], c[1..]);
    }
  }

  lemma {:induction false} BelowTotal(a: string, b: string)
    requires a != b
    ensures Below(a, b) || Below(b, a)
  {
    if a != [] && b != [] && a[0] == b[0] {
      assert a == [a[0]] + a[1..] && b == [b[0]] + b[1..];
      BelowTotal(a[1..], b[1..]);
    }
  }

  lemma BelowAsymmetric(a: string, b: string)
    requires Below(a, b)
    ensures !Below(b, a)
  {
    if Below(b, a) {
      BelowTransitive(a, b, a);
      BelowIrreflexive(a);
    }
  }

  /** "Not after" is transitive: `a <= b <= c` gives `a <= c`. */
  lemma NotBelowTransitive(a: string, b: string, c: string)
    requires !Below(b, a) && !Below(c, b)
    ensures !Below(c, a)
  {
    if Below(c, a) {
      if a == b {
      } else {
        BelowTotal(a, b);
        BelowTransitive(c, a, b);
      }
    }
  }

  // ---------------------------------------------------------------------
  // sort!

  /** Every element is `<=` every later one. */
  ghost predicate Sorted(s: seq<string>) {
    forall i, j :: 0 <= i < j < |s| ==> !Below(s[j], s[i])
  }

  /** Exchanges two neighbouring entries. */
  method SwapDown(a: array<string>, j: nat)
    requires 0 < j < a.Length
    modifies a
    ensures a[j - 1] == old(a[j]) && a[j] == old(a[j - 1])
    ensures forall m :: 0 <= m < a.Length && m != j - 1 && m != j ==> a[m] == old(a[m])
    ensures multiset(a[..]) == old(multiset(a[..]))
  {
    a[j - 1], a[j] := a[j], a[j - 1];
  }

  /** One insertion step: moves `a[i]` down into the sorted prefix `a[..i]`. */
  method SinkInto(a: array<string>, i: nat)
    requires i < a.Length
    requires Sorted(a[..i])
    modifies a
    ensures Sorted(a[..i + 1])
    ensures multiset(a[..]) == old(multiset(a[..]))
  {
    var j := i;
    while j > 0 && Below(a[j], a[j - 1])
      invariant 0 <= j <= i
      invariant multiset(a[..]) == old(multiset(a[..]))
      invariant forall k, l :: 0 <= k < l <= i && k != j && l != j ==> !Below(a[l], a[k])
      invariant forall l :: j < l <= i ==> !Below(a[l], a[j])
    {
      BelowAsymmetric(a[j], a[j - 1]);
      SwapDown(a, j);
      j := j - 1;
    }
    forall k, l | 0 <= k < l <= i
      ensures !Below(a[l], a[k])
    {
      if l == j && k < j - 1 {
        NotBelowTransitive(a[k], a[j - 1], a[j]);
      }
    }
  }

  /** `a.sort!`: insertion sort by `<=>`, in place. */
  method SortInPlace(a: array<string>)
    modifies a
    ensures Sorted(a[..])
    ensures multiset(a[..]) == old(multiset(a[..]))
  {
    var i := 0;
    while i < a.Length
      invariant 0 <= i <= a.Length
      invariant Sorted(a[..i])
      invariant multiset(a[..]) == old(multiset(a[..]))
    {
      SinkInto(a, i);
      i := i + 1;
    }
    assert a[..a.Length] == a[..];
  }

  // ---------------------------------------------------------------------
  // index

  /** `a.index(x)`: the first position holding `x`, nil when there is none. */
  method FirstIndex(a: array<string>, x: string) returns (r: Option<nat>)
    ensures r.None? <==> x !in a[..]
    ensures r.Some? ==> r.value < a.Length && a[r.value] == x
    ensures r.Some? ==> forall k :: 0 <= k < r.value ==> a[k] != x
  {
    var i := 0;
    while i < a.Length
      invariant 0 <= i <= a.Length
      invariant forall k :: 0 <= k < i ==> a[k] != x
    {
      if a[i] == x {
        return Some(i);
      }
      i := i + 1;
    }
    return None;
  }

  // ---------------------------------------------------------------------
  // Counting the names below a name

  /** How many entries of `s` are strictly below `x`. */
  function CountBelow(s: seq<string>, x: string): (n: nat)
    ensures n <= |s|
  {
    if s == [] then 0 else (if Below(s[0], x) then 1 else 0) + CountBelow(s[1..], x)
  }

  lemma {:induction false} CountBelowConcat(a: seq<string>, b: seq<string>, x: string)
    ensures CountBelow(a + b, x) == CountBelow(a, x) + CountBelow(b, x)
  {
    if a == [] {
      assert a + b == b;
    } else {
      assert (a + b)[0] == a[0];
      assert (a + b)[1..] == a[1..] + b;
      CountBelowConcat(a[1..], b, x);
    }
  }

  /** The count depends on the multiset of entries only, not their order. */
  lemma {:induction false} CountBelowPermutation(s: seq<string>, t: seq<string>, x: string)
    requires multiset(s) == multiset(t)
    ensures CountBelow(s, x) == CountBelow(t, x)
    decreases |s|
  {
    if s == [] {
      assert t == [];
    } else {
      var y := s[0];
      assert y in multiset(t);
      var k :| 0 <= k < |t| && t[k] == y;
      var rest := t[..k] + t[k + 1..];
      assert t == t[..k] + [y] + t[k + 1..];
      assert s == [y] + s[1..];
      RemoveMatching(s, t, k);
      CountBelowPermutation(s[1..], rest, x);
      CountBelowConcat(t[..k] + [y], t[k + 1..], x);
      CountBelowConcat(t[..k], [y], x);
      CountBelowConcat(t[..k], t[k + 1..], x);
    }
  }

  lemma {:induction false} CountBelowAll(s: seq<string>, x: string)
    requires forall i :: 0 <= i < |s| ==> Below(s[i], x)
    ensures CountBelow(s, x) == |s|
  {
    if s != [] {
      CountBelowAll(s[1..], x);
    }
  }

  lemma {:induction false} CountBelowNone(s: seq<string>, x: string)
    requires forall i :: 0 <= i < |s| ==> !Below(s[i], x)
    ensures CountBelow(s, x) == 0
  {
    if s != [] {
      CountBelowNone(s[1..], x);
    }
  }

  /** In a sorted list, the first position of `x` is the number of entries
      strictly below `x`: everything before it is `<= x` and differs from
      `x`, everything from it on is `>= x`. */
  lemma SortedFirstIndexIsCount(s: seq<string>, k: nat, x: string)
    requires Sorted(s)
    requires k < |s| && s[k] == x
    requires forall j :: 0 <= j < k ==> s[j] != x
    ensures CountBelow(s, x) == k
  {
    assert s == s[..k] + s[k..];
    forall j | 0 <= j < k
      ensures Below(s[..k][j], x)
    {
      BelowTotal(s[j], x);
    }
    CountBelowAll(s[..k], x);
    forall j | 0 <= j < |s[k..]|
      ensures !Below(s[k..][j], x)
    {
      if j == 0 {
        BelowIrreflexive(x);
      }
    }
    CountBelowNone(s[k..], x);
    CountBelowConcat(s[..k], s[k..], x);
  }

  /** A name that is below another has strictly fewer entries below it, as
      long as it occurs in the list itself. */
  lemma {:induction false} CountBelowStrictlyMonotone(s: seq<string>, x: string, y: string)
    requires Below(x, y)
    ensures CountBelow(s, x) <= CountBelow(s, y)
    ensures x in s ==> CountBelow(s, x) < CountBelow(s, y)
  {
    if s != [] {
      CountBelowStrictlyMonotone(s[1..], x, y);
      if Below(s[0], x) {
        BelowTransitive(s[0], x, y);
      }
      if s[0] == x {
        BelowIrreflexive(x);
      } else {
        assert x in s ==> x in s[1..];
      }
    }
  }

  // ---------------------------------------------------------------------
  // alphabetical_position

  /** The working list of `alphabetical_position`: the stylist's name is appended unless it is
      already a member. */
  function WithName(names: seq<string>, name: string): (r: seq<string>)
    ensures |r| == |names| + (if name in names then 0 else 1)
    ensures name in r
    ensures r[..|names|] == names
    ensures multiset(r)[name] == if name in names then multiset(names)[name] else 1
  {
    if name in names then names else names + [name]
  }

  /** The closed form of `alphabetical_position`: the number of names whose
      lowercase form is strictly below the stylist's lowercased name. */
  function AlphabeticalRank(names: seq<string>, name: string): (n: nat)
    ensures n <= |names|
  {
    CountBelow(LowerAll(names), Lower(name))
  }

  /** Appending the stylist's own name does not change the count. */
  lemma RankWithName(names: seq<string>, name: string)
    ensures CountBelow(LowerAll(WithName(names, name)), Lower(name)) == AlphabeticalRank(names, name)
  {
    if name !in names {
      LowerAllConcat(names, [name]);
      assert LowerAll([name]) == [Lower(name)];
      CountBelowConcat(LowerAll(names), [Lower(name)], Lower(name));
      BelowIrreflexive(Lower(name));
      assert [Lower(name)][1..] == [];
      assert CountBelow([Lower(name)], Lower(name)) == 0;
    }
  }

  /** The position does not depend on the order in which the salon lists its
      names. */
  lemma RankPermutationInvariant(names: seq<string>, reordered: seq<string>, name: string)
    requires multiset(names) == multiset(reordered)
    ensures AlphabeticalRank(names, name) == AlphabeticalRank(reordered, name)
  {
    LowerAllPermutation(names, reordered);
    CountBelowPermutation(LowerAll(names), LowerAll(reordered), Lower(name));
  }

  /** Two stylists whose lowercased names are strictly ordered get strictly
      ordered positions when the first one is listed. */
  lemma RankStrictlyMonotone(names: seq<string>, a: string, b: string)
    requires a in names
    requires Below(Lower(a), Lower(b))
    ensures AlphabeticalRank(names, a) < AlphabeticalRank(names, b)
  {
    var k :| 0 <= k < |names| && names[k] == a;
    assert LowerAll(names)[k] == Lower(a);
    CountBelowStrictlyMonotone(LowerAll(names), Lower(a), Lower(b));
  }

  /** The body of either calculator's `alphabetical_position`: append the name if it is missing,
      lowercase every name, sort in place, and take the first index of the
      stylist's lowercased name, which is always found. */
  method PositionAmong(names: seq<string>, name: string) returns (position: nat)
    ensures position == CountBelow(LowerAll(WithName(names, name)), Lower(name))
    ensures position == AlphabeticalRank(names, name)
    ensures position <= |names|
  {
    var stylistNames := names;
    if name !in stylistNames {
      stylistNames := stylistNames + [name];
    }
    assert stylistNames == WithName(names, name);
    var lowered := LowerAll(stylistNames);
    var sorted := new string[|lowered|](i requires 0 <= i < |lowered| => lowered[i]);
    assert sorted[..] == lowered;
    var k :| 0 <= k < |stylistNames| && stylistNames[k] == name;
    assert lowered[k] == Lower(name);
    SortInPlace(sorted);
    assert Lower(name) in multiset(sorted[..]);
    var found := FirstIndex(sorted, Lower(name));
    position := found.value;
    SortedFirstIndexIsCount(sorted[..], position, Lower(name));
    CountBelowPermutation(sorted[..], lowered, Lower(name));
    RankWithName(names, name);
  }

  /** Example: "Bob" among "alice" and "carol" sorts second. */
  lemma BobSortsSecond()
    ensures AlphabeticalRank(["alice", "carol"], "Bob") == 1
  {
    assert Lower("Bob") == "bob";
    assert Lower("alice") == "alice";
    assert Lower("carol") == "carol";
    assert LowerAll(["alice", "carol"]) == ["alice", "carol"];
    assert Below("alice", "bob");
    assert !Below("carol", "bob");
  }
}
