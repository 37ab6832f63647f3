/**
 The few functions of Go's `strings` and `fmt` packages that the chat room
 relies on when it tokenises a command and formats a reply: TrimSpace,
 HasPrefix, Split on a one-character separator, Join and the `%d` rendering
 of a natural number. Strings are sequences of Unicode scalar values, as Go
 sees them after decoding a `[]byte` as UTF-8.
 */
module GoStrings {

  /** Go's unicode.IsSpace: the Latin-1 white space and the Unicode White_Space characters. */
  predicate IsSpace(c: char)
  {
    c == ' ' || c == '\U{0009}' || c == '\U{000A}' || c == '\U{000B}' || c == '\U{000C}' ||
    c == '\U{000D}' || c == '\U{0085}' || c == '\U{00A0}' || c == '\U{1680}' ||
    ('\U{2000}' <= c <= '\U{200A}') || c == '\U{2028}' || c == '\U{2029}' ||
    c == '\U{202F}' || c == '\U{205F}' || c == '\U{3000}'
  }

  /** The suffix of `s` left after dropping its leading white space. */
  function TrimLeftSpace(s: string): (r: string)
    ensures |r| <= |s| && r == s[|s| - |r|..]
    ensures forall i :: 0 <= i < |s| - |r| ==> IsSpace(s[i])
    ensures r == [] || !IsSpace(r[0])
    decreases |s|
  {
    if s != [] && IsSpace(s[0]) then TrimLeftSpace(s[1..]) else s
  }

  /** The prefix of `s` left after dropping its trailing white space. */
  function TrimRightSpace(s: string): (r: string)
    ensures |r| <= |s| && r == s[..|r|]
    ensures forall i :: |r| <= i < |s| ==> IsSpace(s[i])
    ensures r == [] || !IsSpace(r[|r| - 1])
    decreases |s|
  {
    if s != [] && IsSpace(s[|s| - 1]) then TrimRightSpace(s[..|s| - 1]) else s
  }

  /** strings.TrimSpace: `s` without its leading and trailing white space. */
  function TrimSpace(s: string): (r: string)
    ensures r == [] || (!IsSpace(r[0]) && !IsSpace(r[|r| - 1]))
    ensures |r| <= |s|
  {
    TrimLeftSpace(TrimRightSpace(s))
  }

  /** What TrimSpace removes is white space, and what it keeps is a contiguous slice of its input. */
  lemma TrimSpaceSlice(s: string)
    ensures var r, i := TrimSpace(s), |TrimRightSpace(s)| - |TrimSpace(s)|;
      0 <= i <= |s| - |r| && r == s[i..i + |r|] &&
      (forall k :: 0 <= k < i ==> IsSpace(s[k])) &&
      (forall k :: i + |r| <= k < |s| ==> IsSpace(s[k]))
  {
    var t := TrimRightSpace(s);
    var r := TrimLeftSpace(t);
    var i := |t| - |r|;
    assert r == t[i..];
    assert forall k :: 0 <= k < i ==> s[k] == t[k];
  }

  /** Trimming twice trims nothing more. */
  lemma TrimSpaceIdempotent(s: string)
    ensures TrimSpace(TrimSpace(s)) == TrimSpace(s)
  {
  }

  /** Padding a trimmed text with white space on either side does not change what TrimSpace keeps. */
  lemma TrimSpacePadded(pre: string, t: string, post: string)
    requires forall k :: 0 <= k < |pre| ==> IsSpace(pre[k])
    requires forall k :: 0 <= k < |post| ==> IsSpace(post[k])
    requires t == [] || (!IsSpace(t[0]) && !IsSpace(t[|t| - 1]))
    ensures TrimSpace(pre + t + post) == t
  {
    TrimRightPadded(pre + t, post);
    if t == [] {
      assert pre + t == pre;
      TrimRightPadded([], pre);
      assert [] + pre == pre;
    } else {
      assert TrimRightSpace(pre + t) == pre + t;
    }
    TrimLeftPadded(pre, t);
  }

  lemma {:induction false} TrimRightPadded(s: string, post: string)
    requires forall k :: 0 <= k < |post| ==> IsSpace(post[k])
    ensures TrimRightSpace(s + post) == TrimRightSpace(s)
  {
    if post != [] {
      var last := |s + post| - 1;
      assert IsSpace((s + post)[last]);
      assert (s + post)[..last] == s + post[..|post| - 1];
      TrimRightPadded(s, post[..|post| - 1]);
    } else {
      assert s + post == s;
    }
  }

  lemma {:induction false} TrimLeftPadded(pre: string, s: string)
    requires forall k :: 0 <= k < |pre| ==> IsSpace(pre[k])
    ensures TrimLeftSpace(pre + s) == TrimLeftSpace(s)
  {
    if pre != [] {
      assert (pre + s)[1..] == pre[1..] + s;
      TrimLeftPadded(pre[1..], s);
    } else {
      assert pre + s == s;
    }
  }

  /** strings.HasPrefix. */
  predicate HasPrefix(s: string, prefix: string)
  {
    |prefix| <= |s| && s[..|prefix|] == prefix
  }

  /** The index of the first `c` in `s`, or |s| when there is none. */
  function FirstIndex(s: string, c: char): (i: nat)
    ensures i <= |s|
    ensures c !in s[..i]
    ensures i < |s| ==> s[i] == c
  {
    if s == [] then 0
    else if s[0] == c then 0
    else 1 + FirstIndex(s[1..], c)
  }

  /** FirstIndex is characterised by its two ensures: no `c` before it, a `c` at it unless it is |s|. */
  lemma {:induction false} FirstIndexIs(s: string, c: char, i: nat)
    requires i <= |s| && c !in s[..i]
    requires i < |s| ==> s[i] == c
    ensures FirstIndex(s, c) == i
  {
    if s != [] && s[0] != c {
      assert s[1..][..i - 1] == s[..i][1..];
      FirstIndexIs(s[1..], c, i - 1);
    }
  }

  /** strings.Split(s, string(c)): the pieces of `s` between occurrences of `c`. */
  function Split(s: string, c: char): (r: seq<string>)
    ensures |r| >= 1
    ensures forall k :: 0 <= k < |r| ==> c !in r[k]
  {
    if s == [] then [[]]
    else
      var rest := Split(s[1..], c);
      if s[0] == c then [[]] + rest
      else [[s[0]] + rest[0]] + rest[1..]
  }

  /** strings.Join: the parts in order, with `sep` between each two; no parts give "". */
  function Join(parts: seq<string>, sep: string): (r: string)
    ensures parts == [] ==> r == []
    ensures |parts| >= 1 ==> HasPrefix(r, parts[0])
    ensures |parts| >= 2 ==> HasPrefix(r[|parts[0]|..], sep + parts[1])
  {
    if parts == [] then []
    else if |parts| == 1 then parts[0]
    else parts[0] + sep + Join(parts[1..], sep)
  }

  /**
   The first piece of Split is `s` up to its first separator; a second piece
   exists exactly when a separator does, and the pieces after the first are
   the split of what follows that separator.
   */
  lemma {:induction false} SplitHead(s: string, c: char)
    ensures Split(s, c)[0] == s[..FirstIndex(s, c)]
    ensures |Split(s, c)| > 1 <==> FirstIndex(s, c) < |s|
    ensures FirstIndex(s, c) < |s| ==> Split(s, c)[1..] == Split(s[FirstIndex(s, c) + 1..], c)
  {
    if s != [] && s[0] != c {
      SplitHead(s[1..], c);
      assert s[..FirstIndex(s, c)] == [s[0]] + s[1..][..FirstIndex(s[1..], c)];
      if FirstIndex(s, c) < |s| {
        assert s[FirstIndex(s, c) + 1..] == s[1..][FirstIndex(s[1..], c) + 1..];
      }
    }
  }

  /** Joining the pieces of a split with the separator gives back the text. */
  lemma {:induction false} JoinSplit(s: string, c: char)
    ensures Join(Split(s, c), [c]) == s
  {
    if s != [] {
      var rest := Split(s[1..], c);
      JoinSplit(s[1..], c);
      if s[0] == c {
        assert Split(s, c) == [[]] + rest;
      } else {
        var r := Split(s, c);
        assert r == [[s[0]] + rest[0]] + rest[1..];
        if |rest| == 1 {
          assert Join(r, [c]) == [s[0]] + rest[0];
        } else {
          assert r[1..] == rest[1..];
          assert Join(r, [c]) == [s[0]] + rest[0] + [c] + Join(rest[1..], [c]);
        }
      }
    }
  }

  /** Splitting a join of separator-free pieces gives back the pieces. */
  lemma {:induction false} SplitJoin(parts: seq<string>, c: char)
    requires |parts| >= 1
    requires forall k :: 0 <= k < |parts| ==> c !in parts[k]
    ensures Split(Join(parts, [c]), c) == parts
  {
    if |parts| == 1 {
      SplitNoSeparator(parts[0], c);
    } else {
      SplitJoin(parts[1..], c);
      SplitPrefix(parts[0], Join(parts[1..], [c]), c);
    }
  }

  /** A text without the separator splits into itself. */
  lemma {:induction false} SplitNoSeparator(s: string, c: char)
    requires c !in s
    ensures Split(s, c) == [s]
  {
    if s != [] {
      SplitNoSeparator(s[1..], c);
      assert [s[0]] + s[1..] == s;
    }
  }

  /** Splitting `p + [c] + t`, where `p` holds no separator, yields `p` followed by the split of `t`. */
  lemma {:induction false} SplitPrefix(p: string, t: string, c: char)
    requires c !in p
    ensures Split(p + [c] + t, c) == [p] + Split(t, c)
  {
    if p != [] {
      SplitPrefix(p[1..], t, c);
      assert (p + [c] + t)[1..] == p[1..] + [c] + t;
      assert [p[0]] + p[1..] == p;
    } else {
      assert (p + [c] + t)[1..] == t;
    }
  }

  /** The decimal digit for 0 <= d < 10. */
  function Digit(d: nat): char
    requires d < 10
  {
    "0123456789"[d]
  }

  /** fmt's `%d` for a natural number: its decimal digits, most significant first. */
  function Itoa(n: nat): (r: string)
    ensures |r| >= 1
    ensures forall k :: 0 <= k < |r| ==> '0' <= r[k] <= '9'
    ensures n >= 10 ==> r[0] != '0'
  {
    if n < 10 then [Digit(n)] else Itoa(n / 10) + [Digit(n % 10)]
  }

  /** The number a string of decimal digits denotes. */
  function DecimalValue(s: string): nat
    requires forall k :: 0 <= k < |s| ==> '0' <= s[k] <= '9'
  {
    if s == [] then 0
    else DecimalValue(s[..|s| - 1]) * 10 + (s[|s| - 1] as int - '0' as int)
  }

  /** Reading back the decimal rendering of `n` gives `n`. */
  lemma {:induction false} ItoaRoundTrip(n: nat)
    ensures DecimalValue(Itoa(n)) == n
  {
    if n >= 10 {
      ItoaRoundTrip(n / 10);
      var r, d := Itoa(n), n % 10;
      assert r == Itoa(n / 10) + [Digit(d)];
      assert r[..|r| - 1] == Itoa(n / 10);
      DigitValue(d);
      assert r[|r| - 1] == Digit(d);
    }
    else {
      DigitValue(n);
    }
  }

  /** The digit for `d` reads back as `d`. */
  lemma DigitValue(d: nat)
    requires d < 10
    ensures Digit(d) as int - '0' as int == d
  {
  }
}
