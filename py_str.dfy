/** The Python string operations the scripts rely on, over strings modelled
    as `seq<char>`: `sub in s`, `s.endswith(suffix)`, `s.split(sep)`,
    `str(n)` for a non-negative integer and `os.path.join(a, b)` on POSIX
    paths. `JoinWith`, the inverse of `split`, and `DecimalValue`, the
    inverse of `str(n)`, are used only to state round trips. */
module PyStr {

  /** `sub` occurs in `s` starting at index `i`. */
  ghost predicate OccursAt(s: string, sub: string, i: int)
  {
    0 <= i && i + |sub| <= |s| && s[i..i + |sub|] == sub
  }

  /** Python's `sub in s` (also `Series.str.contains` on a pattern read literally). */
  function Contains(s: string, sub: string): (r: bool)
    ensures r ==> |sub| <= |s|
    ensures sub == [] ==> r
    decreases |s|
  {
    if |sub| > |s| then false
    else if s[..|sub|] == sub then true
    else Contains(s[1..], sub)
  }

  /** `Contains` holds exactly when `sub` occurs somewhere in `s`. */
  lemma {:induction false} ContainsIff(s: string, sub: string)
    ensures Contains(s, sub) <==> exists i :: OccursAt(s, sub, i)
    decreases |s|
  {
    if |sub| > |s| {
      assert forall i :: !OccursAt(s, sub, i);
    } else if s[..|sub|] == sub {
      assert OccursAt(s, sub, 0);
    } else {
      ContainsIff(s[1..], sub);
      if exists i :: OccursAt(s[1..], sub, i) {
        var i :| OccursAt(s[1..], sub, i);
        assert s[i + 1..i + 1 + |sub|] == s[1..][i..i + |sub|];
        assert OccursAt(s, sub, i + 1);
      }
      if exists i :: OccursAt(s, sub, i) {
        var i :| OccursAt(s, sub, i);
        assert i != 0;
        assert s[1..][i - 1..i - 1 + |sub|] == s[i..i + |sub|];
        assert OccursAt(s[1..], sub, i - 1);
      }
    }
  }

  /** Python's `s.endswith(suffix)`. */
  predicate EndsWith(s: string, suffix: string)
    ensures EndsWith(s, suffix) ==> |suffix| <= |s|
  {
    |suffix| <= |s| && s[|s| - |suffix|..] == suffix
  }

  /** `s` ends with `suffix` exactly when it is some string followed by `suffix`. */
  lemma EndsWithIff(s: string, suffix: string)
    ensures EndsWith(s, suffix) <==> exists front :: s == front + suffix
  {
    if EndsWith(s, suffix) {
      assert s == s[..|s| - |suffix|] + suffix;
    }
    if exists front :: s == front + suffix {
      var front :| s == front + suffix;
      assert s[|s| - |suffix|..] == suffix;
    }
  }

  /** Python's `s.split(sep)` with an explicit one-character separator:
      the pieces between separators, empty pieces included. */
  function Split(s: string, sep: char): (r: seq<string>)
    ensures |r| >= 1
  {
    if s == [] then [""]
    else
      var rest := Split(s[1..], sep);
      if s[0] == sep then [""] + rest
      else [[s[0]] + rest[0]] + rest[1..]
  }

  /** The inverse of `Split`: the pieces joined with a one-character
      separator (what Python's `sep.join(parts)` would give), used to state
      the round trip of splitting. */
  function JoinWith(parts: seq<string>, sep: char): string
  {
    if parts == [] then ""
    else if |parts| == 1 then parts[0]
    else parts[0] + [sep] + JoinWith(parts[1..], sep)
  }

  /** Number of occurrences of `c` in `s` (Python's `s.count(c)`). */
  function CountOf(s: string, c: char): nat
  {
    multiset(s)[c]
  }

  /** Splitting yields one more piece than there are separators. */
  lemma {:induction false} SplitLength(s: string, sep: char)
    ensures |Split(s, sep)| == CountOf(s, sep) + 1
  {
    if s != [] {
      SplitLength(s[1..], sep);
      assert s == [s[0]] + s[1..];
      assert multiset(s) == multiset([s[0]]) + multiset(s[1..]);
    }
  }

  /** No piece produced by splitting contains the separator. */
  lemma {:induction false} SplitPiecesFree(s: string, sep: char)
    ensures forall k :: 0 <= k < |Split(s, sep)| ==> sep !in Split(s, sep)[k]
  {
    if s != [] {
      SplitPiecesFree(s[1..], sep);
      var rest := Split(s[1..], sep);
      if s[0] != sep {
        assert sep !in rest[0];
        assert sep !in [s[0]] + rest[0];
      }
    }
  }

  /** Joining the pieces with the separator gives back the string. */
  lemma {:induction false} JoinSplit(s: string, sep: char)
    ensures JoinWith(Split(s, sep), sep) == s
  {
    if s != [] {
      JoinSplit(s[1..], sep);
      var rest := Split(s[1..], sep);
      if s[0] == sep {
        assert JoinWith([""] + rest, sep) == "" + [sep] + JoinWith(rest, sep);
      } else if |rest| == 1 {
        assert JoinWith([[s[0]] + rest[0]] + rest[1..], sep) == [s[0]] + rest[0];
      } else {
        var r := [[s[0]] + rest[0]] + rest[1..];
        assert r[1..] == rest[1..];
        assert JoinWith(rest, sep) == rest[0] + [sep] + JoinWith(rest[1..], sep);
        assert JoinWith(r, sep) == ([s[0]] + rest[0]) + [sep] + JoinWith(rest[1..], sep);
      }
    }
  }

  /** Splitting a joined list of separator-free pieces gives back the pieces. */
  lemma {:induction false} SplitJoin(parts: seq<string>, sep: char)
    requires |parts| >= 1
    requires forall k :: 0 <= k < |parts| ==> sep !in parts[k]
    ensures Split(JoinWith(parts, sep), sep) == parts
    decreases |parts|, |parts[0]|
  {
    var p := parts[0];
    if p == [] {
      if |parts| > 1 {
        SplitJoin(parts[1..], sep);
        assert JoinWith(parts, sep) == [sep] + JoinWith(parts[1..], sep);
        assert ([sep] + JoinWith(parts[1..], sep))[1..] == JoinWith(parts[1..], sep);
        assert parts == [""] + parts[1..];
      }
    } else {
      var shorter := [p[1..]] + parts[1..];
      assert p[1..] == shorter[0];
      assert forall k :: 1 <= k < |shorter| ==> shorter[k] == parts[k];
      SplitJoin(shorter, sep);
      var joined := JoinWith(parts, sep);
      var tail := JoinWith(shorter, sep);
      if |parts| == 1 {
        assert joined == p;
        assert tail == p[1..];
      } else {
        assert joined == p + [sep] + JoinWith(parts[1..], sep);
        assert tail == p[1..] + [sep] + JoinWith(parts[1..], sep);
      }
      assert joined == [p[0]] + tail;
      assert p[0] != sep by { assert p[0] in p; }
      assert joined[1..] == tail;
      assert shorter[1..] == parts[1..];
      assert [p[0]] + p[1..] == p;
    }
  }

  /** The character for a decimal digit. */
  function DigitChar(d: nat): char
    requires d < 10
  {
    "0123456789"[d]
  }

  /** The digit a decimal character stands for ('0' for anything else). */
  function DigitValue(c: char): nat
  {
    if '0' <= c <= '9' then (c as int) - ('0' as int) else 0
  }

  /** Python's `str(n)` for a non-negative integer: its decimal digits,
      without leading zeros. */
  function NatToString(n: nat): (r: string)
    ensures |r| >= 1
    ensures forall i :: 0 <= i < |r| ==> '0' <= r[i] <= '9'
    ensures |r| > 1 ==> r[0] != '0'
    decreases n
  {
    if n < 10 then [DigitChar(n)] else NatToString(n / 10) + [DigitChar(n % 10)]
  }

  /** The value of a string of decimal digits. */
  function DecimalValue(s: string): nat
  {
    if s == [] then 0 else DecimalValue(s[..|s| - 1]) * 10 + DigitValue(s[|s| - 1])
  }

  /** Reading the decimal text of `n` gives back `n`. */
  lemma {:induction false} NatToStringRoundTrip(n: nat)
    ensures DecimalValue(NatToString(n)) == n
    decreases n
  {
    if n < 10 {
      assert DecimalValue([DigitChar(n)]) == DecimalValue([]) * 10 + DigitValue(DigitChar(n));
    } else {
      NatToStringRoundTrip(n / 10);
      var s := NatToString(n);
      assert s == NatToString(n / 10) + [DigitChar(n % 10)];
      assert s[..|s| - 1] == NatToString(n / 10);
      assert DigitValue(s[|s| - 1]) == n % 10;
    }
  }

  /** Distinct numbers have distinct decimal texts. */
  lemma NatToStringInjective(m: nat, n: nat)
    ensures NatToString(m) == NatToString(n) ==> m == n
  {
    NatToStringRoundTrip(m);
    NatToStringRoundTrip(n);
  }

  /** `os.path.join(a, b)` on POSIX: an absolute `b` replaces `a`; otherwise
      `b` is appended, with a '/' between unless `a` is empty or already ends
      with one. The ensures pin the result down: it starts with `a`, ends
      with `b`, has exactly one '/' in front of `b` when `a` is not empty,
      and is one character longer than `a + b` exactly when a '/' had to be
      added. */
  function PathJoin(a: string, b: string): (r: string)
    ensures |b| > 0 && b[0] == '/' ==> r == b
    ensures !(|b| > 0 && b[0] == '/') ==> EndsWith(r, b) && |a| <= |r| && r[..|a|] == a
    ensures !(|b| > 0 && b[0] == '/') ==>
      |r| == |a| + |b| + (if a == [] || a[|a| - 1] == '/' then 0 else 1)
    ensures !(|b| > 0 && b[0] == '/') && a != [] ==> r[|r| - |b| - 1] == '/'
  {
    if |b| > 0 && b[0] == '/' then b
    else if a == [] || a[|a| - 1] == '/' then a + b
    else a + "/" + b
  }

  /** The contract of `PathJoin` for a relative `b` leaves no freedom: any
      string that starts with `a`, ends with `b`, has the same length and a
      '/' in front of `b` is the joined path. */
  lemma PathJoinDetermined(a: string, b: string, r: string)
    requires !(|b| > 0 && b[0] == '/')
    requires |a| <= |r| && r[..|a|] == a && EndsWith(r, b)
    requires |r| == |a| + |b| + (if a == [] || a[|a| - 1] == '/' then 0 else 1)
    requires a != [] ==> r[|r| - |b| - 1] == '/'
    ensures r == PathJoin(a, b)
  {
    if a == [] || a[|a| - 1] == '/' {
      assert r == r[..|a|] + r[|a|..];
    } else {
      assert r == r[..|a|] + [r[|a|]] + r[|a| + 1..];
    }
  }
}
