/** The string operations the service applies to request parameters:
    `trim()`, `toLowerCase()` and `split('_')`, restricted to ASCII. */
module Text {

  /** The ASCII characters JavaScript's `trim` removes: tab, line feed,
      vertical tab, form feed, carriage return and space. */
  predicate IsSpace(c: char) {
    c == ' ' || 9 <= c as int <= 13
  }

  /** Every character is whitespace. */
  ghost predicate AllSpace(s: string) {
    forall i :: 0 <= i < |s| ==> IsSpace(s[i])
  }

  predicate IsUpper(c: char) {
    'A' <= c <= 'Z'
  }

  function LowerChar(c: char): (d: char)
    ensures !IsUpper(d)
    ensures IsSpace(d) <==> IsSpace(c)
  {
    if IsUpper(c) then (c as int + 32) as char else c
  }

  /** `toLowerCase()` on ASCII letters; every other character is kept. */
  function ToLower(s: string): (r: string)
    ensures |r| == |s|
    ensures forall i :: 0 <= i < |s| ==> r[i] == LowerChar(s[i])
  {
    seq(|s|, i requires 0 <= i < |s| => LowerChar(s[i]))
  }

  /** Lower-casing leaves no upper-case letter, changes nothing else, and a
      second application changes nothing. */
  lemma ToLowerIdempotent(s: string)
    ensures forall i :: 0 <= i < |s| ==> !IsUpper(ToLower(s)[i])
    ensures forall i :: 0 <= i < |s| && !IsUpper(s[i]) ==> ToLower(s)[i] == s[i]
    ensures ToLower(ToLower(s)) == ToLower(s)
  {
    var t := ToLower(s);
    forall i | 0 <= i < |s|
      ensures ToLower(t)[i] == t[i]
    {
      assert !IsUpper(t[i]);
    }
  }

  /** The index of the first non-whitespace character (`|s|` if none). */
  function TrimStartIndex(s: string): (a: nat)
    ensures a <= |s|
    ensures forall i :: 0 <= i < a ==> IsSpace(s[i])
    ensures a < |s| ==> !IsSpace(s[a])
    decreases |s|
  {
    if |s| > 0 && IsSpace(s[0]) then 1 + TrimStartIndex(s[1..]) else 0
  }

  /** The index just after the last non-whitespace character (0 if none). */
  function TrimEndIndex(s: string): (b: nat)
    ensures b <= |s|
    ensures forall i :: b <= i < |s| ==> IsSpace(s[i])
    ensures b > 0 ==> !IsSpace(s[b - 1])
    decreases |s|
  {
    if |s| > 0 && IsSpace(s[|s| - 1]) then TrimEndIndex(s[..|s| - 1]) else |s|
  }

  /** The two indexes are determined by the properties their contracts
      state. */
  lemma TrimIndexesUnique(s: string, a: nat, b: nat)
    requires a <= |s| && (forall i :: 0 <= i < a ==> IsSpace(s[i])) && (a < |s| ==> !IsSpace(s[a]))
    requires b <= |s| && (forall i :: b <= i < |s| ==> IsSpace(s[i])) && (b > 0 ==> !IsSpace(s[b - 1]))
    ensures TrimStartIndex(s) == a && TrimEndIndex(s) == b
  {
  }

  /** `trim()`: the slice between the leading and the trailing whitespace. */
  function Trim(s: string): (r: string)
    ensures r == [] || (!IsSpace(r[0]) && !IsSpace(r[|r| - 1]))
    ensures r == [] <==> AllSpace(s)
    // everything cut off is whitespace
    ensures var a := TrimStartIndex(s);
            a + |r| <= |s| && r == s[a..a + |r|] && AllSpace(s[..a]) && AllSpace(s[a + |r|..])
  {
    var a := TrimStartIndex(s);
    var b := TrimEndIndex(s);
    if a < b then s[a..b] else []
  }

  /** The trim of a string is the slice between any two indexes with the
      properties of the trim indexes. */
  lemma TrimBetween(s: string, a: nat, b: nat)
    requires a < b <= |s| && (forall i :: 0 <= i < a ==> IsSpace(s[i])) && !IsSpace(s[a])
    requires (forall i :: b <= i < |s| ==> IsSpace(s[i])) && !IsSpace(s[b - 1])
    ensures Trim(s) == s[a..b]
  {
    TrimIndexesUnique(s, a, b);
  }

  /** A string that neither starts nor ends with whitespace is its own trim;
      in particular trimming twice is trimming once. */
  lemma TrimIdempotent(s: string)
    ensures (s == [] || (!IsSpace(s[0]) && !IsSpace(s[|s| - 1]))) ==> Trim(s) == s
    ensures Trim(Trim(s)) == Trim(s)
  {
    var t := Trim(s);
    TrimIndexesUnique(t, 0, |t|);
    if s == [] || (!IsSpace(s[0]) && !IsSpace(s[|s| - 1])) {
      TrimIndexesUnique(s, 0, |s|);
    }
  }

  /** Two strings whose trim indexes enclose equal slices have equal trims. */
  lemma TrimSameSlice(y: string, c: nat, d: nat, z: string, a: nat, b: nat)
    requires c < d <= |y| && (forall i :: 0 <= i < c ==> IsSpace(y[i])) && !IsSpace(y[c])
    requires (forall i :: d <= i < |y| ==> IsSpace(y[i])) && !IsSpace(y[d - 1])
    requires a < b <= |z| && (forall i :: 0 <= i < a ==> IsSpace(z[i])) && !IsSpace(z[a])
    requires (forall i :: b <= i < |z| ==> IsSpace(z[i])) && !IsSpace(z[b - 1])
    requires y[c..d] == z[a..b]
    ensures Trim(y) == Trim(z)
  {
    TrimBetween(y, c, d);
    TrimBetween(z, a, b);
  }

  /** Crossed trim indexes mean the string is all whitespace. */
  lemma AllSpaceWithoutTrimIndexes(s: string)
    requires TrimStartIndex(s) >= TrimEndIndex(s)
    ensures AllSpace(s)
  {
    var a := TrimStartIndex(s);
    forall i | 0 <= i < |s| ensures IsSpace(s[i]) {
      if i >= a { assert i >= TrimEndIndex(s); }
    }
  }

  lemma AllSpaceConcat(p: string, z: string)
    requires AllSpace(p) && AllSpace(z)
    ensures AllSpace(p + z)
  {
    var y := p + z;
    forall i | 0 <= i < |y| ensures IsSpace(y[i]) {
      if i < |p| { assert y[i] == p[i]; } else { assert y[i] == z[i - |p|]; }
    }
  }

  /** The trim indexes of `z`, moved past a whitespace prefix `p`, have the
      trim index properties in `p + z`, and enclose the same slice. */
  lemma ShiftedSpaces(p: string, z: string, a: nat, b: nat)
    requires AllSpace(p) && a < b <= |z|
    requires (forall i :: 0 <= i < a ==> IsSpace(z[i])) && !IsSpace(z[a])
    requires (forall i :: b <= i < |z| ==> IsSpace(z[i])) && !IsSpace(z[b - 1])
    ensures var y := p + z;
      && (forall i :: 0 <= i < |p| + a ==> IsSpace(y[i])) && !IsSpace(y[|p| + a])
      && (forall i :: |p| + b <= i < |y| ==> IsSpace(y[i])) && !IsSpace(y[|p| + b - 1])
      && y[|p| + a..|p| + b] == z[a..b]
  {
    var y := p + z;
    forall i | 0 <= i < |p| + a ensures IsSpace(y[i]) {
      if i < |p| { assert y[i] == p[i]; } else { assert y[i] == z[i - |p|]; }
    }
    forall i | |p| + b <= i < |y| ensures IsSpace(y[i]) {
      assert y[i] == z[i - |p|];
    }
    assert y[|p| + a] == z[a] && y[|p| + b - 1] == z[b - 1];
  }

  /** Leading whitespace does not change the trim. */
  lemma TrimDropsLeading(p: string, z: string)
    requires AllSpace(p)
    ensures Trim(p + z) == Trim(z)
  {
    var y := p + z;
    var a := TrimStartIndex(z);
    var b := TrimEndIndex(z);
    if a < b {
      ShiftedSpaces(p, z, a, b);
      TrimSameSlice(y, |p| + a, |p| + b, z, a, b);
    } else {
      AllSpaceWithoutTrimIndexes(z);
      AllSpaceConcat(p, z);
    }
  }

  /** Trailing whitespace does not change the trim. */
  lemma TrimDropsTrailing(z: string, q: string)
    requires AllSpace(q)
    ensures Trim(z + q) == Trim(z)
  {
    var y := z + q;
    if !AllSpace(z) {
      var a := TrimStartIndex(z);
      var b := TrimEndIndex(z);
      TrimIndexesUnique(y, a, b);
      assert y[a..b] == z[a..b];
    } else {
      assert AllSpace(y);
    }
  }

  /** Whitespace around a string does not change its trim. */
  lemma TrimIgnoresPadding(p: string, x: string, q: string)
    requires AllSpace(p) && AllSpace(q)
    ensures Trim(p + x + q) == Trim(x)
  {
    calc {
      Trim(p + x + q);
      { assert p + x + q == p + (x + q); }
      Trim(p + (x + q));
      { TrimDropsLeading(p, x + q); }
      Trim(x + q);
      { TrimDropsTrailing(x, q); }
      Trim(x);
    }
  }

  /** Lower-casing a slice is slicing the lower-cased string. */
  lemma LowerSlice(x: string, a: nat, b: nat)
    requires a <= b <= |x|
    ensures ToLower(x)[a..b] == ToLower(x[a..b])
  {
  }

  /** Trimming and lower-casing commute. */
  lemma TrimLowerCommute(x: string)
    ensures Trim(ToLower(x)) == ToLower(Trim(x))
  {
    var y := ToLower(x);
    var a := TrimStartIndex(x);
    var b := TrimEndIndex(x);
    if a < b {
      assert Trim(x) == x[a..b];
      forall i | 0 <= i < a ensures IsSpace(y[i]) { assert IsSpace(x[i]); }
      forall i | b <= i < |y| ensures IsSpace(y[i]) { assert IsSpace(x[i]); }
      TrimBetween(y, a, b);
      LowerSlice(x, a, b);
    } else {
      assert AllSpace(x);
      assert AllSpace(y) by { forall i | 0 <= i < |y| ensures IsSpace(y[i]) { assert IsSpace(x[i]); } }
    }
  }

  /** Joins parts with `sep` between consecutive parts (`Array.prototype.join`). */
  function Join(parts: seq<string>, sep: char): string
    requires |parts| > 0
    decreases |parts|
  {
    if |parts| == 1 then parts[0] else parts[0] + [sep] + Join(parts[1..], sep)
  }

  /** `split(sep)`: the maximal separator-free segments, in order; a string
      with k separators has k + 1 segments, some of them possibly empty. */
  function Split(s: string, sep: char): (parts: seq<string>)
    ensures |parts| > 0
    ensures forall k :: 0 <= k < |parts| ==> sep !in parts[k]
    ensures Join(parts, sep) == s
    decreases |s|
  {
    if |s| == 0 then [[]]
    else
      var rest := Split(s[1..], sep);
      if s[0] == sep then
        assert s == [sep] + s[1..];
        [[]] + rest
      else
        var parts := [[s[0]] + rest[0]] + rest[1..];
        assert parts[1..] == rest[1..];
        assert s == [s[0]] + s[1..];
        parts
  }

  /** Splitting a separator-free prefix followed by anything glues the
      prefix onto the first segment of the rest. */
  lemma {:induction false} SplitPrefix(p: string, t: string, sep: char)
    requires sep !in p
    ensures Split(p + t, sep) == [p + Split(t, sep)[0]] + Split(t, sep)[1..]
    decreases |p|
  {
    if |p| == 0 {
      var st := Split(t, sep);
      assert p + t == t;
      assert p + st[0] == st[0];
      assert st == [st[0]] + st[1..];
    } else {
      var st := Split(t, sep);
      assert (p + t)[0] == p[0] != sep;
      assert (p + t)[1..] == p[1..] + t;
      SplitPrefix(p[1..], t, sep);
      var rest := Split(p[1..] + t, sep);
      assert rest[0] == p[1..] + st[0];
      assert rest[1..] == st[1..];
      assert Split(p + t, sep) == [[p[0]] + rest[0]] + rest[1..];
      assert [p[0]] + (p[1..] + st[0]) == p + st[0];
    }
  }

  /** The other half of the round trip: splitting a join of separator-free
      parts gives back the parts. */
  lemma {:induction false} SplitJoin(parts: seq<string>, sep: char)
    requires |parts| > 0
    requires forall k :: 0 <= k < |parts| ==> sep !in parts[k]
    ensures Split(Join(parts, sep), sep) == parts
    decreases |parts|
  {
    if |parts| == 1 {
      SplitPrefix(parts[0], [], sep);
      assert parts[0] + [] == parts[0];
    } else {
      var tail := Join(parts[1..], sep);
      SplitJoin(parts[1..], sep);
      assert parts[0] + [sep] + tail == parts[0] + ([sep] + tail);
      SplitPrefix(parts[0], [sep] + tail, sep);
      assert ([sep] + tail)[1..] == tail;
      assert Split([sep] + tail, sep) == [[]] + parts[1..];
      assert parts[0] + [] == parts[0];
    }
  }
}
