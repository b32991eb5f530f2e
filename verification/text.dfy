/** The parts of .NET's string library that the service relies on, for
    non-null strings: `char.IsWhiteSpace`, `string.IsNullOrWhiteSpace`,
    `Trim`, `IndexOf`/`LastIndexOf` of a character and `string.Join`. */
module Text {

  /** `char.IsWhiteSpace`: the Unicode space, line and paragraph separators,
      the control characters U+0009 to U+000D, and U+0085. */
  predicate IsWhiteSpace(c: char) {
    || c == ' '
    || ('\t' <= c && c <= '\r')
    || c == '\U{0085}'
    || c == '\U{00A0}'
    || c == '\U{1680}'
    || ('\U{2000}' <= c && c <= '\U{200A}')
    || c == '\U{2028}'
    || c == '\U{2029}'
    || c == '\U{202F}'
    || c == '\U{205F}'
    || c == '\U{3000}'
  }

  /** The characters of `s` that are not white space, in order. */
  function NonWhiteSpace(s: string): string {
    if s == [] then []
    else if IsWhiteSpace(s[0]) then NonWhiteSpace(s[1..])
    else [s[0]] + NonWhiteSpace(s[1..])
  }

  /** `string.IsNullOrWhiteSpace` on a non-null string. */
  predicate IsBlank(s: string) {
    NonWhiteSpace(s) == []
  }

  lemma {:induction false} NonWhiteSpaceAppend(a: string, b: string)
    ensures NonWhiteSpace(a + b) == NonWhiteSpace(a) + NonWhiteSpace(b)
  {
    if a == [] {
      assert a + b == b;
    } else {
      assert (a + b)[0] == a[0];
      assert (a + b)[1..] == a[1..] + b;
      NonWhiteSpaceAppend(a[1..], b);
    }
  }

  /** A string is blank exactly when every one of its characters is white space. */
  lemma {:induction false} BlankIffAllWhiteSpace(s: string)
    ensures IsBlank(s) <==> forall i :: 0 <= i < |s| ==> IsWhiteSpace(s[i])
  {
    if s != [] {
      BlankIffAllWhiteSpace(s[1..]);
      if IsWhiteSpace(s[0]) && IsBlank(s[1..]) {
        forall i | 0 <= i < |s| ensures IsWhiteSpace(s[i]) {
          if i > 0 { assert s[i] == s[1..][i - 1]; }
        }
      }
    }
  }

  /** `TrimStart()`: drops the leading white space. */
  function TrimStart(s: string): (r: string)
    ensures |r| <= |s| && r == s[|s| - |r|..]
    ensures r == [] || !IsWhiteSpace(r[0])
    decreases |s|
  {
    if s != [] && IsWhiteSpace(s[0]) then TrimStart(s[1..]) else s
  }

  /** `TrimEnd()`: drops the trailing white space. */
  function TrimEnd(s: string): (r: string)
    ensures |r| <= |s| && r == s[..|r|]
    ensures r == [] || !IsWhiteSpace(r[|r| - 1])
    decreases |s|
  {
    if s != [] && IsWhiteSpace(s[|s| - 1]) then TrimEnd(s[..|s| - 1]) else s
  }

  /** `Trim()`: drops the leading and the trailing white space. */
  function Trim(s: string): (r: string)
    ensures |r| <= |s|
    ensures r == [] || (!IsWhiteSpace(r[0]) && !IsWhiteSpace(r[|r| - 1]))
    ensures Leading(s) + |r| <= |s| && r == s[Leading(s)..Leading(s) + |r|]
  {
    var t := TrimStart(s);
    var r := TrimEnd(t);
    SliceOfSuffix(s, |s| - |t|, |r|);
    r
  }

  lemma SliceOfSuffix(s: string, k: nat, n: nat)
    requires k + n <= |s|
    ensures s[k..][..n] == s[k..k + n]
  {
  }

  /** The number of leading white-space characters of `s`. */
  function Leading(s: string): (k: nat)
    ensures k <= |s|
  {
    |s| - |TrimStart(s)|
  }

  lemma {:induction false} TrimStartKeepsNonWhiteSpace(s: string)
    ensures NonWhiteSpace(TrimStart(s)) == NonWhiteSpace(s)
    decreases |s|
  {
    if s != [] && IsWhiteSpace(s[0]) {
      TrimStartKeepsNonWhiteSpace(s[1..]);
    }
  }

  lemma {:induction false} TrimEndKeepsNonWhiteSpace(s: string)
    ensures NonWhiteSpace(TrimEnd(s)) == NonWhiteSpace(s)
    decreases |s|
  {
    if s != [] && IsWhiteSpace(s[|s| - 1]) {
      var init := s[..|s| - 1];
      TrimEndKeepsNonWhiteSpace(init);
      assert s == init + [s[|s| - 1]];
      NonWhiteSpaceAppend(init, [s[|s| - 1]]);
      assert NonWhiteSpace([s[|s| - 1]]) == [];
    }
  }

  /** Trimming removes white space only, and leaves nothing exactly when the
      string is blank. */
  lemma TrimKeepsNonWhiteSpace(s: string)
    ensures NonWhiteSpace(Trim(s)) == NonWhiteSpace(s)
    ensures Trim(s) == [] <==> IsBlank(s)
  {
    TrimStartKeepsNonWhiteSpace(s);
    TrimEndKeepsNonWhiteSpace(TrimStart(s));
    var r := Trim(s);
    if r != [] {
      StartsVisible(r);
    }
  }

  lemma StartsVisible(r: string)
    requires r != [] && !IsWhiteSpace(r[0])
    ensures NonWhiteSpace(r) != []
  {
  }

  /** A trimmed string is its own trim. */
  lemma TrimIdempotent(s: string)
    ensures Trim(Trim(s)) == Trim(s)
  {
    var r := Trim(s);
    if r != [] {
      assert TrimStart(r) == r;
      assert TrimEnd(r) == r;
    }
  }

  /** The strings of `xs` written one after the other. */
  function Concat(xs: seq<string>): string {
    if xs == [] then [] else xs[0] + Concat(xs[1..])
  }

  lemma {:induction false} ConcatAppend(xs: seq<string>, ys: seq<string>)
    ensures Concat(xs + ys) == Concat(xs) + Concat(ys)
  {
    if xs == [] {
      assert xs + ys == ys;
    } else {
      assert (xs + ys)[0] == xs[0];
      assert (xs + ys)[1..] == xs[1..] + ys;
      ConcatAppend(xs[1..], ys);
    }
  }

  lemma {:induction false} ConcatMembers(xs: seq<string>)
    ensures forall x, c :: x in xs && c in x ==> c in Concat(xs)
  {
    if xs != [] {
      ConcatMembers(xs[1..]);
      forall x, c | x in xs && c in x ensures c in Concat(xs) {
        if x != xs[0] {
          assert x in xs[1..];
        }
      }
    }
  }

  /** The characters kept by `NonWhiteSpace` are those of `s` that are not
      white space. */
  lemma {:induction false} NonWhiteSpaceMembers(s: string)
    ensures forall c :: c in NonWhiteSpace(s) <==> c in s && !IsWhiteSpace(c)
  {
    if s != [] {
      NonWhiteSpaceMembers(s[1..]);
      assert forall c :: c in s <==> c == s[0] || c in s[1..];
    }
  }

  /** The number of UTF-16 code units of a character: two (a surrogate pair)
      from U+10000 up, one below. */
  function Utf16Units(c: char): nat {
    if c as int < 0x1_0000 then 1 else 2
  }

  /** .NET's `Length` of a string: its UTF-16 code units. */
  function Utf16Length(s: string): nat {
    if s == [] then 0 else Utf16Units(s[0]) + Utf16Length(s[1..])
  }

  /** Every character of `s` lies in the Basic Multilingual Plane. */
  predicate InBmp(s: string) {
    forall c :: c in s ==> c as int < 0x1_0000
  }

  /** A string is never shorter in UTF-16 code units than in characters, and
      the two lengths agree exactly when it stays in the Basic Multilingual
      Plane. */
  lemma {:induction false} Utf16LengthInBmp(s: string)
    ensures Utf16Length(s) >= |s|
    ensures Utf16Length(s) == |s| <==> InBmp(s)
  {
    if s != [] {
      Utf16LengthInBmp(s[1..]);
      assert Utf16Length(s) == Utf16Units(s[0]) + Utf16Length(s[1..]);
      assert s[0] in s;
      assert forall c :: c in s[1..] ==> c in s;
      if s[0] as int < 0x1_0000 && InBmp(s[1..]) {
        forall c | c in s ensures c as int < 0x1_0000 {
          if c != s[0] {
            assert c in s[1..];
          }
        }
      }
    }
  }

  /** `string.Join(separator, xs)`. */
  function Join(separator: string, xs: seq<string>): string {
    if xs == [] then []
    else if |xs| == 1 then xs[0]
    else xs[0] + separator + Join(separator, xs[1..])
  }

  /** Where `xs[i]` starts in `Join(separator, xs)`: after every earlier
      string and one separator per earlier string. */
  function JoinOffset(separator: string, xs: seq<string>, i: nat): nat
    requires i < |xs|
  {
    if i == 0 then 0 else |xs[0]| + |separator| + JoinOffset(separator, xs[1..], i - 1)
  }

  /** `t` occurs in `s` starting at index `at`. */
  predicate PlacedAt(s: string, at: nat, t: string) {
    at + |t| <= |s| && s[at..at + |t|] == t
  }

  /** A slice past a prefix is a slice of what follows it. */
  lemma SliceAfter(a: string, b: string, lo: nat, hi: nat)
    requires lo <= hi <= |b|
    ensures (a + b)[|a| + lo..|a| + hi] == b[lo..hi]
  {
  }

  /** The joined string ends right after the last string. */
  lemma {:induction false} JoinLength(separator: string, xs: seq<string>)
    requires xs != []
    ensures |Join(separator, xs)| == JoinOffset(separator, xs, |xs| - 1) + |xs[|xs| - 1]|
  {
    if |xs| > 1 {
      JoinLength(separator, xs[1..]);
      assert xs[|xs| - 1] == xs[1..][|xs| - 2];
    }
  }

  /** The `i`-th string sits at its offset. */
  lemma {:induction false} JoinPlacesString(separator: string, xs: seq<string>, i: nat)
    requires i < |xs|
    ensures PlacedAt(Join(separator, xs), JoinOffset(separator, xs, i), xs[i])
  {
    if |xs| > 1 {
      var pre, jr := xs[0] + separator, Join(separator, xs[1..]);
      assert Join(separator, xs) == pre + jr;
      if i > 0 {
        JoinPlacesString(separator, xs[1..], i - 1);
        var o := JoinOffset(separator, xs[1..], i - 1);
        assert xs[i] == xs[1..][i - 1];
        SliceAfter(pre, jr, o, o + |xs[i]|);
      }
    }
  }

  /** The gap after the `i`-th string, up to the next one, is one separator. */
  lemma {:induction false} JoinPlacesSeparator(separator: string, xs: seq<string>, i: nat)
    requires i + 1 < |xs|
    ensures JoinOffset(separator, xs, i) + |xs[i]| + |separator| == JoinOffset(separator, xs, i + 1)
    ensures PlacedAt(Join(separator, xs), JoinOffset(separator, xs, i) + |xs[i]|, separator)
  {
    var pre, jr := xs[0] + separator, Join(separator, xs[1..]);
    assert Join(separator, xs) == pre + jr;
    if i > 0 {
      JoinPlacesSeparator(separator, xs[1..], i - 1);
      var o := JoinOffset(separator, xs[1..], i - 1);
      assert xs[i] == xs[1..][i - 1];
      SliceAfter(pre, jr, o + |xs[i]|, JoinOffset(separator, xs[1..], i));
    }
  }

  /** `IndexOf(c)`: the index of the first `c`, or -1. */
  function IndexOf(s: string, c: char): (r: int)
    ensures -1 <= r < |s|
    ensures r >= 0 ==> s[r] == c
    ensures forall j :: 0 <= j < |s| && (r < 0 || j < r) ==> s[j] != c
  {
    if s == [] then -1
    else if s[0] == c then 0
    else var k := IndexOf(s[1..], c); if k < 0 then -1 else k + 1
  }

  /** `LastIndexOf(c)`: the index of the last `c`, or -1. */
  function LastIndexOf(s: string, c: char): (r: int)
    ensures -1 <= r < |s|
    ensures r >= 0 ==> s[r] == c
    ensures forall j :: r < j < |s| ==> s[j] != c
  {
    if s == [] then -1
    else if s[|s| - 1] == c then |s| - 1
    else LastIndexOf(s[..|s| - 1], c)
  }
}
