/**
 * The JavaScript string primitives the generator relies on:
 * `String.prototype.split` and `Array.prototype.join` with a one-character
 * separator, `String.prototype.trim`, and the removal of carriage returns
 * done with `split('\r').join('')`.
 */
module Text {

  /** Number of occurrences of `x` in `s`. */
  function Count<T(==)>(s: seq<T>, x: T): nat
  {
    if |s| == 0 then 0 else (if s[0] == x then 1 else 0) + Count(s[1..], x)
  }

  /** Concatenation is associative; stated over plain sequences so that proofs can regroup without unfolding. */
  lemma AppendAssoc<T>(a: seq<T>, b: seq<T>, c: seq<T>)
    ensures a + (b + c) == a + b + c
  {
  }

  lemma ConcatRegroup<T>(a: seq<T>, b: seq<T>, c: seq<T>, d: seq<T>)
    ensures a + b + c + d == a + (b + (c + d))
  {
  }

  /** Counting distributes over concatenation. */
  lemma {:induction false} CountAppend<T>(a: seq<T>, b: seq<T>, x: T)
    ensures Count(a + b, x) == Count(a, x) + Count(b, x)
    decreases |a|
  {
    if |a| == 0 {
      assert a + b == b;
    } else {
      assert (a + b)[1..] == a[1..] + b;
      CountAppend(a[1..], b, x);
    }
  }

  // ---------------------------------------------------------------------------
  // split / join
  // ---------------------------------------------------------------------------

  /**
   * `s.split(sep)`: the maximal separator-free pieces of `s`, in order. There
   * is always one more piece than there are separators, so the empty string
   * splits into one empty piece.
   */
  function Split(s: string, sep: char): (parts: seq<string>)
    ensures |parts| == Count(s, sep) + 1
    ensures forall i :: 0 <= i < |parts| ==> sep !in parts[i]
    decreases |s|
  {
    if |s| == 0 then [""]
    else
      var rest := Split(s[1..], sep);
      if s[0] == sep then [""] + rest
      else [[s[0]] + rest[0]] + rest[1..]
  }

  /** `parts.join(sep)`: the pieces with one separator between neighbours. */
  function Join(parts: seq<string>, sep: char): string
    decreases |parts|
  {
    if |parts| == 0 then ""
    else if |parts| == 1 then parts[0]
    else parts[0] + [sep] + Join(parts[1..], sep)
  }

  lemma {:induction false} JoinExtendFirst(x: string, parts: seq<string>, sep: char)
    requires |parts| >= 1
    ensures Join([x + parts[0]] + parts[1..], sep) == x + Join(parts, sep)
  {
    var p := [x + parts[0]] + parts[1..];
    assert p[1..] == parts[1..];
    if |parts| == 1 {
    } else {
      assert Join(p, sep) == (x + parts[0]) + [sep] + Join(parts[1..], sep);
    }
  }

  /** Joining the pieces of a split gives back the original string. */
  lemma {:induction false} JoinSplit(s: string, sep: char)
    ensures Join(Split(s, sep), sep) == s
    decreases |s|
  {
    if |s| == 0 {
    } else {
      var rest := Split(s[1..], sep);
      JoinSplit(s[1..], sep);
      if s[0] == sep {
        var p := [""] + rest;
        assert p[1..] == rest;
        assert Join(p, sep) == "" + [sep] + Join(rest, sep);
        assert s == [s[0]] + s[1..];
      } else {
        JoinExtendFirst([s[0]], rest, sep);
        assert s == [s[0]] + s[1..];
      }
    }
  }

  /** A separator-free string splits into itself alone. */
  lemma {:induction false} SplitNoSeparator(s: string, sep: char)
    requires sep !in s
    ensures Split(s, sep) == [s]
    decreases |s|
  {
    if |s| > 0 {
      assert sep !in s[1..];
      SplitNoSeparator(s[1..], sep);
      assert s == [s[0]] + s[1..];
    }
  }

  /** A separator-free piece followed by a separator is split off as one piece. */
  lemma {:induction false} SplitFirstPiece(a: string, sep: char, b: string)
    requires sep !in a
    ensures Split(a + [sep] + b, sep) == [a] + Split(b, sep)
    decreases |a|
  {
    var s := a + [sep] + b;
    if |a| == 0 {
      assert s == [sep] + b;
      assert s[1..] == b;
    } else {
      assert s[1..] == a[1..] + [sep] + b;
      assert sep !in a[1..];
      SplitFirstPiece(a[1..], sep, b);
      assert a == [a[0]] + a[1..];
    }
  }

  /** Splitting a join of separator-free pieces gives back the pieces. */
  lemma {:induction false} SplitJoin(parts: seq<string>, sep: char)
    requires |parts| >= 1
    requires forall i :: 0 <= i < |parts| ==> sep !in parts[i]
    ensures Split(Join(parts, sep), sep) == parts
    decreases |parts|
  {
    if |parts| == 1 {
      SplitNoSeparator(parts[0], sep);
    } else {
      SplitJoin(parts[1..], sep);
      SplitFirstPiece(parts[0], sep, Join(parts[1..], sep));
      assert parts == [parts[0]] + parts[1..];
    }
  }

  /** A join starts with the first character of its first piece, when that piece is not empty. */
  lemma {:induction false} JoinStartsWithFirstPiece(parts: seq<string>, sep: char)
    requires |parts| >= 1 && |parts[0]| > 0
    ensures |Join(parts, sep)| > 0 && Join(parts, sep)[0] == parts[0][0]
  {
  }

  /** A join ends with the last character of its last piece, when that piece is not empty. */
  lemma {:induction false} JoinEndsWithLastPiece(parts: seq<string>, sep: char)
    requires |parts| >= 1 && |parts[|parts| - 1]| > 0
    ensures var s := Join(parts, sep); |s| > 0 && s[|s| - 1] == parts[|parts| - 1][|parts[|parts| - 1]| - 1]
    decreases |parts|
  {
    if |parts| > 1 {
      assert parts[1..][|parts[1..]| - 1] == parts[|parts| - 1];
      JoinEndsWithLastPiece(parts[1..], sep);
    }
  }

  // ---------------------------------------------------------------------------
  // carriage returns
  // ---------------------------------------------------------------------------

  /** `s.split('\r').join('')`: `s` with every carriage return removed. */
  function StripCarriageReturns(s: string): (r: string)
    ensures '\r' !in r
    ensures |r| == |s| - Count(s, '\r')
  {
    if |s| == 0 then ""
    else (if s[0] == '\r' then "" else [s[0]]) + StripCarriageReturns(s[1..])
  }

  /** Removal works character by character: it distributes over concatenation. */
  lemma {:induction false} StripDistributes(a: string, b: string)
    ensures StripCarriageReturns(a + b) == StripCarriageReturns(a) + StripCarriageReturns(b)
    decreases |a|
  {
    if |a| > 0 {
      assert (a + b)[1..] == a[1..] + b;
      StripDistributes(a[1..], b);
    } else {
      assert a + b == b;
    }
  }

  /** A single character survives exactly when it is not a carriage return. */
  lemma StripSingle(c: char)
    ensures StripCarriageReturns([c]) == (if c == '\r' then "" else [c])
  {
  }

  /** Removal changes a string exactly when the string holds a carriage return. */
  lemma {:induction false} StripIdentityIff(s: string)
    ensures StripCarriageReturns(s) == s <==> '\r' !in s
    decreases |s|
  {
    if |s| > 0 {
      StripIdentityIff(s[1..]);
      assert s == [s[0]] + s[1..];
    }
  }

  /** Removing carriage returns twice is the same as removing them once. */
  lemma StripIdempotent(s: string)
    ensures StripCarriageReturns(StripCarriageReturns(s)) == StripCarriageReturns(s)
  {
    StripIdentityIff(StripCarriageReturns(s));
  }

  /** `s` written with Windows line endings: every line feed becomes CR LF. */
  function WithCrlf(s: string): string
  {
    if |s| == 0 then ""
    else (if s[0] == '\n' then "\r\n" else [s[0]]) + WithCrlf(s[1..])
  }

  /** Reading back a CR LF copy of carriage-return-free text restores it. */
  lemma {:induction false} StripUndoesCrlf(s: string)
    requires '\r' !in s
    ensures StripCarriageReturns(WithCrlf(s)) == s
    decreases |s|
  {
    if |s| > 0 {
      var head := if s[0] == '\n' then "\r\n" else [s[0]];
      var rest := WithCrlf(s[1..]);
      assert WithCrlf(s) == head + rest;
      assert s == [s[0]] + s[1..];
      assert '\r' !in s[1..] && s[0] != '\r';
      StripDistributes(head, rest);
      StripUndoesCrlf(s[1..]);
      StripCrlfHead(s[0]);
    }
  }

  /** One character written with Windows line endings reads back as itself. */
  lemma StripCrlfHead(c: char)
    requires c != '\r'
    ensures StripCarriageReturns(if c == '\n' then "\r\n" else [c]) == [c]
  {
    if c == '\n' {
      StripDistributes("\r", "\n");
      StripSingle('\r');
      StripSingle('\n');
      assert "\r\n" == "\r" + "\n";
    } else {
      StripSingle(c);
    }
  }

  // ---------------------------------------------------------------------------
  // trim
  // ---------------------------------------------------------------------------

  /**
   * The characters `String.prototype.trim` removes: the ECMAScript
   * WhiteSpace code points (tab, vertical tab, form feed, space, no-break
   * space, zero-width no-break space and the Unicode Zs category) and the
   * LineTerminator code points (LF, CR, line and paragraph separators).
   */
  predicate IsWhiteSpace(c: char)
  {
    || c == '\t' || c == '\n' || c == '\U{B}' || c == '\U{C}' || c == '\r' || c == ' '
    || c == '\U{A0}' || c == '\U{1680}' || ('\U{2000}' <= c <= '\U{200A}')
    || c == '\U{2028}' || c == '\U{2029}' || c == '\U{202F}' || c == '\U{205F}'
    || c == '\U{3000}' || c == '\U{FEFF}'
  }

  predicate AllWhiteSpace(s: string)
  {
    forall k :: 0 <= k < |s| ==> IsWhiteSpace(s[k])
  }

  /** `s.trimStart()`: the suffix of `s` after its leading white space. */
  function TrimStart(s: string): (r: string)
    ensures |r| <= |s| && r == s[|s| - |r|..]
    ensures AllWhiteSpace(s[..|s| - |r|])
    ensures |r| > 0 ==> !IsWhiteSpace(r[0])
    decreases |s|
  {
    if |s| > 0 && IsWhiteSpace(s[0]) then TrimStart(s[1..]) else s
  }

  /** `s.trimEnd()`: the prefix of `s` before its trailing white space. */
  function TrimEnd(s: string): (r: string)
    ensures |r| <= |s| && r == s[..|r|]
    ensures AllWhiteSpace(s[|r|..])
    ensures |r| > 0 ==> !IsWhiteSpace(r[|r| - 1])
    decreases |s|
  {
    if |s| > 0 && IsWhiteSpace(s[|s| - 1]) then TrimEnd(s[..|s| - 1]) else s
  }

  /**
   * `s.trim()`: the infix of `s` left after removing all leading and all
   * trailing white space; it neither starts nor ends with white space.
   */
  function Trim(s: string): (r: string)
    ensures IsTrimOf(s, r)
    ensures |r| > 0 ==> !IsWhiteSpace(r[0]) && !IsWhiteSpace(r[|r| - 1])
  {
    var t := TrimStart(s);
    var r := TrimEnd(t);
    TrimParts(s, t, r, |s| - |t|);
    r
  }

  /** Trimming the end of the suffix `t` of `s` leaves an infix of `s` padded by white space. */
  lemma TrimParts(s: string, t: string, r: string, i: nat)
    requires i == |s| - |t| && t == s[i..] && AllWhiteSpace(s[..i])
    requires |r| <= |t| && r == t[..|r|] && AllWhiteSpace(t[|r|..])
    ensures 0 <= i <= |s| - |r| && r == s[i..i + |r|]
    ensures AllWhiteSpace(s[..i]) && AllWhiteSpace(s[i + |r|..])
    ensures IsTrimOf(s, r)
  {
    assert s[i + |r|..] == t[|r|..];
  }

  /** `r` is an infix of `s` with only white space before and after it. */
  predicate IsTrimOf(s: string, r: string)
  {
    exists i :: 0 <= i <= |s| - |r| && r == s[i..i + |r|] && AllWhiteSpace(s[..i]) && AllWhiteSpace(s[i + |r|..])
  }

  /** Leading white space in front of `s` does not change where `s` starts. */
  lemma {:induction false} TrimStartSkipsWhiteSpace(a: string, s: string)
    requires AllWhiteSpace(a)
    ensures TrimStart(a + s) == TrimStart(s)
    decreases |a|
  {
    if |a| > 0 {
      assert (a + s)[0] == a[0];
      assert (a + s)[1..] == a[1..] + s;
      TrimStartSkipsWhiteSpace(a[1..], s);
    } else {
      assert a + s == s;
    }
  }

  /** Trailing white space behind `s` does not change where `s` ends. */
  lemma {:induction false} TrimEndSkipsWhiteSpace(s: string, b: string)
    requires AllWhiteSpace(b)
    ensures TrimEnd(s + b) == TrimEnd(s)
    decreases |b|
  {
    if |b| > 0 {
      var x := s + b;
      assert x[|x| - 1] == b[|b| - 1];
      assert x[..|x| - 1] == s + b[..|b| - 1];
      TrimEndSkipsWhiteSpace(s, b[..|b| - 1]);
    } else {
      assert s + b == s;
    }
  }

  /** Appending white space either disappears into an all-blank string or stays behind the trimmed start. */
  lemma {:induction false} TrimStartAppend(s: string, b: string)
    requires AllWhiteSpace(b)
    ensures TrimStart(s + b) == (if TrimStart(s) == "" then "" else TrimStart(s) + b)
    decreases |s|
  {
    if |s| == 0 {
      assert s + b == b;
      TrimStartSkipsWhiteSpace(b, "");
      assert b + "" == b;
    } else if IsWhiteSpace(s[0]) {
      assert (s + b)[1..] == s[1..] + b;
      TrimStartAppend(s[1..], b);
    } else {
    }
  }

  /** Trimming ignores any white-space padding on either side. */
  lemma TrimIgnoresPadding(a: string, s: string, b: string)
    requires AllWhiteSpace(a) && AllWhiteSpace(b)
    ensures Trim(a + s + b) == Trim(s)
  {
    assert a + s + b == a + (s + b);
    TrimStartSkipsWhiteSpace(a, s + b);
    assert TrimStart(a + s + b) == TrimStart(s + b);
    TrimStartAppend(s, b);
    if TrimStart(s) != "" {
      TrimEndSkipsWhiteSpace(TrimStart(s), b);
      assert Trim(a + s + b) == TrimEnd(TrimStart(s) + b) == TrimEnd(TrimStart(s));
    } else {
      assert TrimStart(a + s + b) == "";
    }
  }

  /** Trimming never introduces a character: trimmed text avoids whatever the text avoids. */
  lemma TrimAvoids(s: string, c: char)
    requires c !in s
    ensures c !in Trim(s)
  {
    var t := TrimStart(s);
    InfixAvoids(s, |s| - |t|, |s|, c);
    InfixAvoids(t, 0, |TrimEnd(t)|, c);
  }

  /** A character missing from `s` is missing from every slice of it. */
  lemma InfixAvoids(s: string, i: nat, j: nat, c: char)
    requires i <= j <= |s| && c !in s
    ensures c !in s[i..j]
  {
    forall k | 0 <= k < j - i
      ensures s[i..j][k] != c
    {
      assert s[i..j][k] == s[i + k];
    }
  }

  /** Text that neither starts nor ends with white space is its own trim. */
  lemma TrimOfUnpadded(s: string)
    requires |s| > 0 && !IsWhiteSpace(s[0]) && !IsWhiteSpace(s[|s| - 1])
    ensures Trim(s) == s
  {
    assert TrimStart(s) == s;
  }

  /** Trimming twice is the same as trimming once. */
  lemma TrimIdempotent(s: string)
    ensures Trim(Trim(s)) == Trim(s)
  {
    var r := Trim(s);
    if |r| > 0 {
      assert TrimStart(r) == r;
      assert TrimEnd(r) == r;
    }
  }
}
