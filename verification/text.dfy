/** The two string operations the tour form relies on, with JavaScript's
    meaning: `String.prototype.trim` and `String.prototype.split` on a
    one-character separator, and the `length` JavaScript reports. Strings
    are sequences of Unicode scalar values; JavaScript counts their length
    in UTF-16 code units, where a character above U+FFFF takes two. */
module Text {

  /** The characters `trim` removes: ECMAScript's WhiteSpace production
      (tab, vertical tab, form feed, space, no-break space, zero-width
      no-break space and the Unicode space separators) and its
      LineTerminator production (line feed, carriage return, line and
      paragraph separators). */
  predicate IsSpace(c: char) {
    || '\t' <= c <= '\r'
    || c == ' '
    || c == '\U{A0}'
    || c == '\U{1680}'
    || '\U{2000}' <= c <= '\U{200A}'
    || c == '\U{2028}'
    || c == '\U{2029}'
    || c == '\U{202F}'
    || c == '\U{205F}'
    || c == '\U{3000}'
    || c == '\U{FEFF}'
  }

  predicate AllSpace(s: string) {
    forall i :: 0 <= i < |s| ==> IsSpace(s[i])
  }

  /** Neither end of `s` is whitespace. */
  predicate Trimmed(s: string) {
    |s| == 0 || (!IsSpace(s[0]) && !IsSpace(s[|s| - 1]))
  }

  /** `s.trim()`: whitespace is cut away at both ends until neither end is
      whitespace. */
  function Trim(s: string): (r: string)
    ensures |r| <= |s|
    ensures Trimmed(r)
    decreases |s|
  {
    if |s| > 0 && IsSpace(s[0]) then Trim(s[1..])
    else if |s| > 0 && IsSpace(s[|s| - 1]) then Trim(s[..|s| - 1])
    else s
  }

  /** What `Trim` cut away is whitespace on both sides of the result, which
      is a middle slice of the input. */
  lemma {:induction false} TrimIsSlice(s: string)
    ensures exists k :: 0 <= k <= |s| - |Trim(s)| && SpaceAround(s, k, Trim(s))
    decreases |s|
  {
    var r := Trim(s);
    if |s| > 0 && IsSpace(s[0]) {
      TrimIsSlice(s[1..]);
      var k :| 0 <= k <= |s| - 1 - |r| && SpaceAround(s[1..], k, r);
      SpaceAroundFront(s, k, r);
    } else if |s| > 0 && IsSpace(s[|s| - 1]) {
      TrimIsSlice(s[..|s| - 1]);
      var k :| 0 <= k <= |s| - 1 - |r| && SpaceAround(s[..|s| - 1], k, r);
      SpaceAroundBack(s, k, r);
    } else {
      assert SpaceAround(s, 0, r);
    }
  }

  /** A whitespace character in front keeps a string whitespace-framed. */
  lemma SpaceAroundFront(s: string, k: nat, r: string)
    requires |s| > 0 && IsSpace(s[0])
    requires SpaceAround(s[1..], k, r)
    ensures SpaceAround(s, k + 1, r)
  {
    assert s[k + 1..k + 1 + |r|] == s[1..][k..k + |r|];
    assert s[..k + 1] == [s[0]] + s[1..][..k];
    assert s[k + 1 + |r|..] == s[1..][k + |r|..];
    AllSpaceSplit([s[0]], s[1..][..k]);
  }

  /** A whitespace character at the back keeps a string whitespace-framed. */
  lemma SpaceAroundBack(s: string, k: nat, r: string)
    requires |s| > 0 && IsSpace(s[|s| - 1])
    requires SpaceAround(s[..|s| - 1], k, r)
    ensures SpaceAround(s, k, r)
  {
    var t := s[..|s| - 1];
    assert s[k..k + |r|] == t[k..k + |r|];
    assert s[..k] == t[..k];
    assert s[k + |r|..] == t[k + |r|..] + [s[|s| - 1]];
    AllSpaceSplit(t[k + |r|..], [s[|s| - 1]]);
  }

  /** `s` is whitespace up to `k`, then `r`, then whitespace to the end. */
  predicate SpaceAround(s: string, k: nat, r: string) {
    && k + |r| <= |s|
    && s[k..k + |r|] == r
    && AllSpace(s[..k])
    && AllSpace(s[k + |r|..])
  }

  lemma AllSpaceSplit(a: string, b: string)
    ensures AllSpace(a + b) <==> AllSpace(a) && AllSpace(b)
  {
    if AllSpace(a) && AllSpace(b) {
      forall i | 0 <= i < |a + b|
        ensures IsSpace((a + b)[i])
      {
        if i < |a| { assert (a + b)[i] == a[i]; } else { assert (a + b)[i] == b[i - |a|]; }
      }
    }
    if AllSpace(a + b) {
      forall i | 0 <= i < |a| ensures IsSpace(a[i]) { assert (a + b)[i] == a[i]; }
      forall i | 0 <= i < |b| ensures IsSpace(b[i]) { assert (a + b)[|a| + i] == b[i]; }
    }
  }

  /** The trim of a string is the ONLY trimmed middle part it has: if `s` is
      whitespace, then `m`, then whitespace, and `m` is trimmed, then
      `Trim(s)` is `m`. With `TrimIsSlice` this characterises `Trim`
      completely. */
  lemma {:induction false} TrimUnique(a: string, m: string, b: string)
    requires AllSpace(a) && AllSpace(b) && Trimmed(m)
    ensures Trim(a + m + b) == m
    decreases |a| + |b|
  {
    var s := a + m + b;
    if |a| > 0 {
      assert s[0] == a[0];
      assert s[1..] == a[1..] + m + b;
      TrimUnique(a[1..], m, b);
    } else if |m| > 0 {
      assert s == m + b;
      assert s[0] == m[0];
      if |b| > 0 {
        assert s[|s| - 1] == b[|b| - 1];
        assert s[..|s| - 1] == a + m + b[..|b| - 1];
        TrimUnique(a, m, b[..|b| - 1]);
      } else {
        assert s == m;
        assert s[|s| - 1] == m[|m| - 1];
      }
    } else if |b| > 0 {
      assert s == b;
      assert s[1..] == a + m + b[1..];
      TrimUnique(a, m, b[1..]);
    } else {
      assert s == "";
    }
  }

  /** A string with no whitespace at either end is its own trim. */
  lemma TrimOfTrimmed(s: string)
    requires Trimmed(s)
    ensures Trim(s) == s
  {
    TrimUnique("", s, "");
    assert "" + s + "" == s;
  }

  /** Trimming twice is trimming once. */
  lemma TrimIdempotent(s: string)
    ensures Trim(Trim(s)) == Trim(s)
  {
    var m := Trim(s);
    TrimUnique("", m, "");
    assert "" + m + "" == m;
  }

  /** JavaScript's `s.length`: the number of UTF-16 code units, one for a
      character of the Basic Multilingual Plane and two (a surrogate pair)
      for any character above U+FFFF. It equals the number of characters
      exactly when no character lies above U+FFFF. */
  function Utf16Length(s: string): (n: nat)
    ensures |s| <= n <= 2 * |s|
    ensures n == |s| <==> forall i :: 0 <= i < |s| ==> s[i] < '\U{10000}'
    ensures |s| == 1 ==> n == (if s[0] < '\U{10000}' then 1 else 2)
    decreases |s|
  {
    if |s| == 0 then 0
    else
      var rest := Utf16Length(s[1..]);
      assert forall i :: 1 <= i < |s| ==> s[1..][i - 1] == s[i];
      (if s[0] < '\U{10000}' then 1 else 2) + rest
  }

  /** The length of a concatenation is the sum of the lengths; with the
      length of a single character this fixes `Utf16Length` on every
      string. */
  lemma {:induction false} Utf16LengthAppend(a: string, b: string)
    ensures Utf16Length(a + b) == Utf16Length(a) + Utf16Length(b)
    decreases |a|
  {
    if |a| == 0 {
      assert a + b == b;
    } else {
      assert (a + b)[1..] == a[1..] + b;
      Utf16LengthAppend(a[1..], b);
    }
  }

  /** `parts.join(sep)`. */
  function Join(parts: seq<string>, sep: char): string
    decreases |parts|
  {
    if |parts| == 0 then ""
    else if |parts| == 1 then parts[0]
    else parts[0] + [sep] + Join(parts[1..], sep)
  }

  /** How many times `c` occurs in `s`. */
  function Count(s: string, c: char): nat
    decreases |s|
  {
    if |s| == 0 then 0 else (if s[0] == c then 1 else 0) + Count(s[1..], c)
  }

  /** `s.split(sep)` for a one-character separator: one more piece than
      there are separators (so `""` gives `[""]`), and no piece holds the
      separator. */
  function Split(s: string, sep: char): (r: seq<string>)
    ensures |r| == Count(s, sep) + 1
    ensures forall i :: 0 <= i < |r| ==> sep !in r[i]
    decreases |s|
  {
    if |s| == 0 then [""]
    else
      var rest := Split(s[1..], sep);
      if s[0] == sep then [""] + rest
      else [[s[0]] + rest[0]] + rest[1..]
  }

  /** Joining the pieces of a split gives back the string. */
  lemma {:induction false} JoinSplit(s: string, sep: char)
    ensures Join(Split(s, sep), sep) == s
    decreases |s|
  {
    if |s| > 0 {
      assert s == [s[0]] + s[1..];
      var rest := Split(s[1..], sep);
      JoinSplit(s[1..], sep);
      if s[0] != sep && |rest| > 1 {
        var r := Split(s, sep);
        assert r[1..] == rest[1..];
        assert Join(r, sep) == [s[0]] + rest[0] + [sep] + Join(rest[1..], sep);
      } else if s[0] == sep {
        var r := Split(s, sep);
        assert r[1..] == rest;
      }
    }
  }

  /** How `Split` treats the first character of a non-empty string. */
  lemma SplitCons(c: char, t: string, sep: char)
    ensures c == sep ==> Split([c] + t, sep) == [""] + Split(t, sep)
    ensures c != sep ==> Split([c] + t, sep) == [[c] + Split(t, sep)[0]] + Split(t, sep)[1..]
  {
    assert ([c] + t)[1..] == t;
  }

  /** Moving the first character of the first part out of a join. */
  lemma JoinHead(parts: seq<string>, sep: char)
    requires |parts| > 0 && |parts[0]| > 0
    ensures Join(parts, sep) == [parts[0][0]] + Join([parts[0][1..]] + parts[1..], sep)
  {
    var p := parts[0];
    var tail := [p[1..]] + parts[1..];
    assert tail[1..] == parts[1..];
    assert p == [p[0]] + p[1..];
  }

  /** Splitting a join of separator-free pieces gives back the pieces. */
  lemma {:induction false} SplitJoin(parts: seq<string>, sep: char)
    requires |parts| > 0
    requires forall i :: 0 <= i < |parts| ==> sep !in parts[i]
    ensures Split(Join(parts, sep), sep) == parts
    decreases |parts|, |parts[0]|
  {
    var p := parts[0];
    if |p| > 0 {
      var tail := [p[1..]] + parts[1..];
      assert sep !in p[1..] by { assert forall c :: c in p[1..] ==> c in p; }
      SplitJoin(tail, sep);
      JoinHead(parts, sep);
      SplitCons(p[0], Join(tail, sep), sep);
      assert p == [p[0]] + p[1..];
      assert parts == [p] + parts[1..];
    } else if |parts| > 1 {
      SplitJoin(parts[1..], sep);
      SplitCons(sep, Join(parts[1..], sep), sep);
      assert parts == [""] + parts[1..];
    }
  }

  /** Each element trimmed, as `.map(item => item.trim())` does. */
  function TrimEach(xs: seq<string>): (r: seq<string>)
    ensures |r| == |xs|
    ensures forall i :: 0 <= i < |r| ==> r[i] == Trim(xs[i])
  {
    seq(|xs|, i requires 0 <= i < |xs| => Trim(xs[i]))
  }

}
