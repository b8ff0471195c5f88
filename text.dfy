/** The pieces of Rust's string handling that the modelled code relies on:
    decimal formatting of integers (`{}`), width padding (`{:15}`), `join`,
    `split`, `lines`, `split_whitespace` and `u32::from_str_radix(_, 16)`.
    Each is given with the property that makes it usable: an inverse, or a
    characterisation of what it returns. */
module Text {
  import opened Wrappers

  /** One more element of a slice. */
  lemma SliceSnoc<T>(s: seq<T>, i: nat, j: nat)
    requires i <= j < |s|
    ensures s[i..j + 1] == s[i..j] + [s[j]]
  {
  }

  /** One more element of a prefix; the whole prefix is the sequence. */
  lemma PrefixSnoc<T>(s: seq<T>, i: nat)
    requires i < |s|
    ensures s[..i + 1] == s[..i] + [s[i]]
    ensures s[..|s|] == s
  {
  }

  /** A trace that has grown by the next element of `s` has grown by one more
      element of the prefix. */
  lemma TraceSnoc<T>(t0: seq<T>, t: seq<T>, s: seq<T>, i: nat, x: T)
    requires i < |s| && x == s[i]
    requires t == t0 + s[..i] + [x]
    ensures t == t0 + s[..i + 1]
  {
    assert s[..i + 1] == s[..i] + [s[i]];
  }

  /** Appending to a sequence that grew by one element. */
  lemma AppendSnoc<T>(a: seq<T>, b: seq<T>, x: T, b2: seq<T>)
    requires b + [x] == b2
    ensures a + b + [x] == a + b2
  {
  }

  /* ---------------------------------------------------------------------- */
  /* Decimal numbers, as `{}` formats an integer                             */
  /* ---------------------------------------------------------------------- */

  predicate IsDigit(c: char) { '0' <= c <= '9' }

  predicate AllDigits(s: string) { forall k :: 0 <= k < |s| ==> IsDigit(s[k]) }

  function DigitChar(d: nat): char
    requires d < 10
  {
    ('0' as int + d) as char
  }

  function DigitValue(c: char): nat
    requires IsDigit(c)
  {
    c as int - '0' as int
  }

  /** The decimal digits of `n`, most significant first, with no leading zero. */
  function NatToString(n: nat): (s: string)
    ensures |s| >= 1 && AllDigits(s)
    ensures s[0] == '0' ==> n == 0 && |s| == 1
    decreases n
  {
    if n < 10 then [DigitChar(n)] else NatToString(n / 10) + [DigitChar(n % 10)]
  }

  /** The number a string of decimal digits denotes (the inverse of NatToString). */
  function DecimalValue(s: string): nat
    requires AllDigits(s)
  {
    if s == [] then 0 else DecimalValue(s[..|s| - 1]) * 10 + DigitValue(s[|s| - 1])
  }

  lemma {:induction false} DecimalValueOfNatToString(n: nat)
    ensures DecimalValue(NatToString(n)) == n
    decreases n
  {
    if n >= 10 {
      var s := NatToString(n / 10);
      DecimalValueOfNatToString(n / 10);
      assert (s + [DigitChar(n % 10)])[..|s|] == s;
    }
  }

  lemma NatToStringInjective(m: nat, n: nat)
    requires NatToString(m) == NatToString(n)
    ensures m == n
  {
    DecimalValueOfNatToString(m);
    DecimalValueOfNatToString(n);
  }

  /** `format!("{}", i)` for a signed integer: a minus sign, then the digits of |i|. */
  function IntToString(i: int): (s: string)
    ensures |s| >= 1
    ensures (s[0] == '-') <==> i < 0
    ensures AllDigits(s[1..])
  {
    if i < 0 then "-" + NatToString(-i) else NatToString(i)
  }

  lemma IntToStringInjective(i: int, j: int)
    requires IntToString(i) == IntToString(j)
    ensures i == j
  {
    if i < 0 && j < 0 {
      assert NatToString(-i) == IntToString(i)[1..];
      assert NatToString(-j) == IntToString(j)[1..];
      NatToStringInjective(-i, -j);
    } else if i >= 0 && j >= 0 {
      NatToStringInjective(i, j);
    }
  }

  /* ---------------------------------------------------------------------- */
  /* Padding, prefixes and suffixes                                          */
  /* ---------------------------------------------------------------------- */

  function Spaces(n: nat): (r: string)
    ensures |r| == n && forall k :: 0 <= k < n ==> r[k] == ' '
  {
    seq(n, _ => ' ')
  }

  /** `format!("{:w}", s)`: left-aligned and filled with spaces up to width `w`;
      a longer string is kept whole. */
  function PadRight(s: string, width: nat): (r: string)
    ensures |r| == if |s| < width then width else |s|
    ensures r[..|s|] == s
    ensures forall k :: |s| <= k < |r| ==> r[k] == ' '
  {
    if |s| < width then s + Spaces(width - |s|) else s
  }

  predicate EndsWith(s: string, suffix: string)
  {
    |suffix| <= |s| && s[|s| - |suffix|..] == suffix
  }

  /* ---------------------------------------------------------------------- */
  /* join and split                                                          */
  /* ---------------------------------------------------------------------- */

  /** `parts.join(sep)`. */
  function Join(parts: seq<string>, sep: string): string
  {
    if parts == [] then "" else if |parts| == 1 then parts[0] else parts[0] + sep + Join(parts[1..], sep)
  }

  /** The position of the first `c` in `s`, or `|s|` when there is none. */
  function IndexOf(s: string, c: char): (i: nat)
    ensures i <= |s|
    ensures i < |s| ==> s[i] == c
    ensures forall k :: 0 <= k < i ==> s[k] != c
  {
    if s == [] then 0 else if s[0] == c then 0 else 1 + IndexOf(s[1..], c)
  }

  function Count(s: string, c: char): nat
  {
    if s == [] then 0 else (if s[0] == c then 1 else 0) + Count(s[1..], c)
  }

  /** `s.split(c)`: the pieces of `s` between the occurrences of `c`, in order. */
  function Split(s: string, c: char): (r: seq<string>)
    ensures r != []
    ensures forall k :: 0 <= k < |r| ==> c !in r[k]
    decreases |s|
  {
    var i := IndexOf(s, c);
    if i == |s| then [s] else [s[..i]] + Split(s[i + 1..], c)
  }

  lemma {:induction false} CountAppend(a: string, b: string, c: char)
    ensures Count(a + b, c) == Count(a, c) + Count(b, c)
    decreases |a|
  {
    if a == [] {
      assert a + b == b;
    } else {
      assert (a + b)[1..] == a[1..] + b;
      CountAppend(a[1..], b, c);
    }
  }

  lemma {:induction false} CountAbsent(s: string, c: char)
    requires c !in s
    ensures Count(s, c) == 0
    decreases |s|
  {
    if s != [] {
      CountAbsent(s[1..], c);
    }
  }

  /** `split` yields one piece more than there are separators. */
  lemma {:induction false} SplitLength(s: string, c: char)
    ensures |Split(s, c)| == Count(s, c) + 1
    decreases |s|
  {
    var i := IndexOf(s, c);
    if i == |s| {
      CountAbsent(s, c);
    } else {
      assert s == s[..i] + ([s[i]] + s[i + 1..]);
      CountAppend(s[..i], [s[i]] + s[i + 1..], c);
      CountAppend([s[i]], s[i + 1..], c);
      CountAbsent(s[..i], c);
      SplitLength(s[i + 1..], c);
    }
  }

  /** Joining the pieces of a split with the separator gives the string back. */
  lemma {:induction false} JoinSplit(s: string, c: char)
    ensures Join(Split(s, c), [c]) == s
    decreases |s|
  {
    var i := IndexOf(s, c);
    if i < |s| {
      var rest := Split(s[i + 1..], c);
      JoinSplit(s[i + 1..], c);
      var r := [s[..i]] + rest;
      assert r[0] == s[..i] && r[1..] == rest;
      assert s == s[..i] + [c] + s[i + 1..];
    }
  }

  lemma {:induction false} IndexOfAfter(a: string, c: char, b: string)
    requires c !in a
    ensures IndexOf(a + [c] + b, c) == |a|
    decreases |a|
  {
    if a != [] {
      assert (a + [c] + b)[1..] == a[1..] + [c] + b;
      IndexOfAfter(a[1..], c, b);
    }
  }

  /** A string cut at the first occurrence of a separator absent from its
      head gives that head and the rest back. */
  lemma CutAtFirst(x: string, y: string, x2: string, y2: string, c: char)
    requires c !in x && c !in x2
    requires x + [c] + y == x2 + [c] + y2
    ensures x == x2 && y == y2
  {
    IndexOfAfter(x, c, y);
    IndexOfAfter(x2, c, y2);
    var s := x + [c] + y;
    assert x == s[..|x|] && y == s[|x| + 1..];
    assert x2 == s[..|x2|] && y2 == s[|x2| + 1..];
  }

  lemma {:induction false} IndexOfAbsent(s: string, c: char)
    requires c !in s
    ensures IndexOf(s, c) == |s|
    decreases |s|
  {
    if s != [] {
      IndexOfAbsent(s[1..], c);
    }
  }

  /** Splitting a join of separator-free pieces gives the pieces back. */
  lemma {:induction false} SplitJoin(parts: seq<string>, c: char)
    requires parts != []
    requires forall k :: 0 <= k < |parts| ==> c !in parts[k]
    ensures Split(Join(parts, [c]), c) == parts
    decreases |parts|
  {
    if |parts| == 1 {
      IndexOfAbsent(parts[0], c);
    } else {
      var tail := Join(parts[1..], [c]);
      var s := parts[0] + [c] + tail;
      assert Join(parts, [c]) == s;
      IndexOfAfter(parts[0], c, tail);
      assert s[..|parts[0]|] == parts[0];
      assert s[|parts[0]| + 1..] == tail;
      assert Split(s, c) == [parts[0]] + Split(tail, c);
      SplitJoin(parts[1..], c);
      assert parts == [parts[0]] + parts[1..];
    }
  }

  /* ---------------------------------------------------------------------- */
  /* lines                                                                   */
  /* ---------------------------------------------------------------------- */

  function StripCR(line: string): string
  {
    if line != [] && line[|line| - 1] == '\r' then line[..|line| - 1] else line
  }

  /** `content.lines()` (and tokio's `next_line` loop): the text between line
      feeds; a line ended by "\r\n" loses the carriage return, and a final line
      feed does not start an empty last line. */
  function Lines(content: string): (r: seq<string>)
    ensures forall k :: 0 <= k < |r| ==> '\n' !in r[k]
    decreases |content|
  {
    if content == [] then []
    else
      var i := IndexOf(content, '\n');
      if i == |content| then [content] else [StripCR(content[..i])] + Lines(content[i + 1..])
  }

  /** A file made of `lines`, each ended by a line feed. */
  function Unlines(lines: seq<string>): string
  {
    if lines == [] then "" else lines[0] + "\n" + Unlines(lines[1..])
  }

  /** Reading back a file written line by line gives the lines written. */
  lemma {:induction false} LinesUnlines(lines: seq<string>)
    requires forall k :: 0 <= k < |lines| ==> '\n' !in lines[k] && StripCR(lines[k]) == lines[k]
    ensures Lines(Unlines(lines)) == lines
    decreases |lines|
  {
    if lines != [] {
      var line := lines[0];
      var rest := Unlines(lines[1..]);
      IndexOfAfter(line, '\n', rest);
      AroundSeparator(line, '\n', rest);
      LinesUnlines(lines[1..]);
      assert Lines(line + "\n" + rest) == [line] + lines[1..];
      assert lines == [line] + lines[1..];
    }
  }

  /** The two sides of a separator placed between `a` and `b`. */
  lemma AroundSeparator(a: string, c: char, b: string)
    ensures (a + [c] + b)[..|a|] == a && (a + [c] + b)[|a| + 1..] == b
  {
  }

  /* ---------------------------------------------------------------------- */
  /* split_whitespace                                                        */
  /* ---------------------------------------------------------------------- */

  /** Unicode White_Space, the class `char::is_whitespace` tests. */
  predicate IsWhitespace(c: char)
  {
    || c == ' ' || ('\t' <= c <= '\r')
    || c == '\U{0085}' || c == '\U{00A0}' || c == '\U{1680}'
    || ('\U{2000}' <= c <= '\U{200A}')
    || c == '\U{2028}' || c == '\U{2029}' || c == '\U{202F}' || c == '\U{205F}' || c == '\U{3000}'
  }

  predicate NoWhitespace(s: string)
  {
    forall k :: 0 <= k < |s| ==> !IsWhitespace(s[k])
  }

  function WordLength(s: string): (n: nat)
    ensures n <= |s|
    ensures NoWhitespace(s[..n])
    ensures n < |s| ==> IsWhitespace(s[n])
  {
    if s == [] || IsWhitespace(s[0]) then 0 else 1 + WordLength(s[1..])
  }

  /** `s.split_whitespace()`: the maximal runs of non-whitespace characters. */
  function SplitWhitespace(s: string): (r: seq<string>)
    ensures forall k :: 0 <= k < |r| ==> r[k] != [] && NoWhitespace(r[k])
    decreases |s|
  {
    if s == [] then []
    else if IsWhitespace(s[0]) then SplitWhitespace(s[1..])
    else
      var n := WordLength(s);
      [s[..n]] + SplitWhitespace(s[n..])
  }

  /* ---------------------------------------------------------------------- */
  /* Hexadecimal: u32::from_str_radix(s, 16)                                 */
  /* ---------------------------------------------------------------------- */

  const U32_LIMIT: nat := 0x1_0000_0000

  /** `c.to_digit(16)`: both letter cases are accepted. */
  function HexDigitValue(c: char): Option<nat>
  {
    if '0' <= c <= '9' then Some(c as int - '0' as int)
    else if 'a' <= c <= 'f' then Some(c as int - 'a' as int + 10)
    else if 'A' <= c <= 'F' then Some(c as int - 'A' as int + 10)
    else None
  }

  predicate AllHexDigits(s: string)
  {
    forall k :: 0 <= k < |s| ==> HexDigitValue(s[k]).Some?
  }

  function HexValue(s: string): nat
    requires AllHexDigits(s)
  {
    if s == [] then 0 else HexValue(s[..|s| - 1]) * 16 + HexDigitValue(s[|s| - 1]).value
  }

  /** `u32::from_str_radix(s, 16).ok()`: an empty string, a lone sign, a
      character that is not a hex digit (a minus sign among them: the type is
      unsigned) or a value of 2^32 or more gives None; one leading '+' is
      accepted. */
  function ParseHexU32(s: string): (r: Option<nat>)
    ensures r.Some? ==> r.value < U32_LIMIT
    ensures r.Some? ==> s != [] && s != "+"
  {
    if s == [] || s == "+" then None
    else
      var digits := if s[0] == '+' then s[1..] else s;
      if AllHexDigits(digits) && HexValue(digits) < U32_LIMIT then Some(HexValue(digits)) else None
  }

  function Pow16(n: nat): nat
  {
    if n == 0 then 1 else 16 * Pow16(n - 1)
  }

  function HexChar(d: nat): char
    requires d < 16
  {
    if d < 10 then ('0' as int + d) as char else ('A' as int + d - 10) as char
  }

  /** The last `width` hexadecimal digits of `v`, upper case, most significant
      first: the way the kernel writes an address into /proc/net/tcp. */
  function HexDigits(v: nat, width: nat): (s: string)
    ensures |s| == width && AllHexDigits(s)
  {
    if width == 0 then [] else HexDigits(v / 16, width - 1) + [HexChar(v % 16)]
  }

  lemma {:induction false} HexValueOfHexDigits(v: nat, width: nat)
    requires v < Pow16(width)
    ensures HexValue(HexDigits(v, width)) == v
  {
    if width > 0 {
      var s := HexDigits(v / 16, width - 1);
      HexValueOfHexDigits(v / 16, width - 1);
      assert (s + [HexChar(v % 16)])[..|s|] == s;
    }
  }

  /** An eight-digit address as the kernel writes it parses back to itself. */
  lemma ParseHexU32OfHexDigits(v: nat)
    requires v < U32_LIMIT
    ensures ParseHexU32(HexDigits(v, 8)) == Some(v)
  {
    assert Pow16(8) == U32_LIMIT;
    HexValueOfHexDigits(v, 8);
    assert HexDigits(v, 8)[0] != '+';
  }

  /* ---------------------------------------------------------------------- */
  /* Ordering strings: `Ord for str` and `sort`                              */
  /* ---------------------------------------------------------------------- */

  /** `a <= b` for Rust strings: byte-wise on UTF-8, which is code-point order,
      a proper prefix coming first. */
  predicate LexLe(a: string, b: string)
    decreases |a|
  {
    a == [] || (b != [] && (a[0] < b[0] || (a[0] == b[0] && LexLe(a[1..], b[1..]))))
  }

  lemma {:induction false} LexLeRefl(a: string)
    ensures LexLe(a, a)
    decreases |a|
  {
    if a != [] {
      LexLeRefl(a[1..]);
    }
  }

  lemma {:induction false} LexLeAntisym(a: string, b: string)
    requires LexLe(a, b) && LexLe(b, a)
    ensures a == b
    decreases |a|
  {
    if a != [] {
      LexLeAntisym(a[1..], b[1..]);
      assert a == [a[0]] + a[1..] && b == [b[0]] + b[1..];
    }
  }

  lemma {:induction false} LexLeTrans(a: string, b: string, c: string)
    requires LexLe(a, b) && LexLe(b, c)
    ensures LexLe(a, c)
    decreases |a|
  {
    if a != [] && a[0] == b[0] && b[0] == c[0] {
      LexLeTrans(a[1..], b[1..], c[1..]);
    }
  }

  lemma {:induction false} LexLeTotal(a: string, b: string)
    ensures LexLe(a, b) || LexLe(b, a)
    decreases |a|
  {
    if a != [] && b != [] && a[0] == b[0] {
      LexLeTotal(a[1..], b[1..]);
    }
  }

  lemma LexLeAntisymAll()
    ensures forall a, b :: LexLe(a, b) && LexLe(b, a) ==> a == b
  {
    forall a, b | LexLe(a, b) && LexLe(b, a) ensures a == b {
      LexLeAntisym(a, b);
    }
  }

  lemma {:induction false} MinExists(s: set<string>)
    requires s != {}
    ensures exists x :: x in s && forall y :: y in s ==> LexLe(x, y)
    decreases |s|
  {
    var z :| z in s;
    if s == {z} {
      LexLeRefl(z);
    } else {
      MinExists(s - {z});
      var x :| x in s - {z} && forall y :: y in s - {z} ==> LexLe(x, y);
      LexLeTotal(x, z);
      if LexLe(x, z) {
        assert forall y :: y in s ==> LexLe(x, y);
      } else {
        forall y | y in s ensures LexLe(z, y) {
          if y == z {
            LexLeRefl(z);
          } else {
            LexLeTrans(z, x, y);
          }
        }
      }
    }
  }

  /** The least string of a non-empty set. */
  function SetMin(s: set<string>): (x: string)
    requires s != {}
    ensures x in s && forall y :: y in s ==> LexLe(x, y)
  {
    MinExists(s);
    LexLeAntisymAll();
    var x :| x in s && forall y :: y in s ==> LexLe(x, y);
    x
  }

  predicate StrictlySorted(xs: seq<string>)
  {
    forall i, j :: 0 <= i < j < |xs| ==> LexLe(xs[i], xs[j]) && xs[i] != xs[j]
  }

  /** The elements of a set of strings in ascending order, as collecting the
      keys and calling `sort` gives them. */
  function SortedSet(s: set<string>): (r: seq<string>)
    ensures |r| == |s|
    ensures forall x :: x in r <==> x in s
    ensures StrictlySorted(r)
    decreases |s|
  {
    if s == {} then []
    else
      var x := SetMin(s);
      [x] + SortedSet(s - {x})
  }

  /** The sorted listing is the only strictly ascending listing of a set. */
  lemma {:induction false} SortedUnique(xs: seq<string>, s: set<string>)
    requires StrictlySorted(xs)
    requires forall x :: x in xs <==> x in s
    ensures xs == SortedSet(s)
    decreases |xs|
  {
    if xs == [] {
      assert forall x :: x !in s;
    } else {
      var m := xs[0];
      SortedHead(xs, s);
      SortedTail(xs, s);
      SortedUnique(xs[1..], s - {m});
      calc {
        SortedSet(s);
        [m] + SortedSet(s - {m});
        [m] + xs[1..];
        xs;
      }
    }
  }

  /** The head of a strictly ascending listing is the set's least element. */
  lemma SortedHead(xs: seq<string>, s: set<string>)
    requires StrictlySorted(xs) && xs != []
    requires forall x :: x in xs <==> x in s
    ensures s != {} && SetMin(s) == xs[0]
  {
    assert xs[0] in s;
    var m := SetMin(s);
    assert m in xs;
    var k :| 0 <= k < |xs| && xs[k] == m;
    if k > 0 {
      assert LexLe(xs[0], xs[k]);
    } else {
      LexLeRefl(m);
    }
    LexLeAntisym(xs[0], m);
  }

  /** Dropping the head of a strictly ascending listing lists the rest of the set. */
  lemma SortedTail(xs: seq<string>, s: set<string>)
    requires StrictlySorted(xs) && xs != []
    requires forall x :: x in xs <==> x in s
    ensures StrictlySorted(xs[1..])
    ensures forall x :: x in xs[1..] <==> x in s - {xs[0]}
  {
    var rest := xs[1..];
    forall x ensures x in rest <==> x in s - {xs[0]} {
      if x in rest {
        var k :| 0 <= k < |rest| && rest[k] == x;
        assert xs[k + 1] == x && xs[0] != xs[k + 1];
      }
      if x in s - {xs[0]} {
        assert x in xs;
        var k :| 0 <= k < |xs| && xs[k] == x;
        assert k > 0 && rest[k - 1] == x;
      }
    }
    forall i, j | 0 <= i < j < |rest| ensures LexLe(rest[i], rest[j]) && rest[i] != rest[j] {
      assert rest[i] == xs[i + 1] && rest[j] == xs[j + 1];
    }
  }

  /** Strings that agree up to a last character are ordered by it. */
  lemma {:induction false} LexLeLastChar(p: string, x: char, y: char)
    requires x < y
    ensures LexLe(p + [x], p + [y]) && p + [x] != p + [y]
    decreases |p|
  {
    if p != [] {
      LexLeLastChar(p[1..], x, y);
      assert (p + [x])[1..] == p[1..] + [x] && (p + [y])[1..] == p[1..] + [y];
    }
    assert (p + [x])[|p|] != (p + [y])[|p|];
  }

  /** The sorted listing of two distinct strings. */
  lemma SortedPair(xs: seq<string>, a: string, b: string)
    requires StrictlySorted(xs) && |xs| == 2
    requires forall x :: x in xs <==> x == a || x == b
    requires LexLe(a, b) && a != b
    ensures xs == [a, b]
  {
    assert xs[0] in xs && xs[1] in xs;
    if xs[0] == b {
      assert a in xs;
      LexLeAntisym(a, b);
    }
  }
}
