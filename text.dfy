/** Text helpers shared by the configuration reader, the script store and
    the step editor: Python's `str.split(',')`, `str.strip()` and
    `",".join(...)` on strings, decimal rendering of counters, and the
    "base N" fresh-name search used when new scripts and blocks are created. */
module Text {

  /** Whitespace removed by `str.strip()` (the ASCII part of it). */
  predicate IsSpace(c: char) {
    c == ' ' || c == '\t' || c == '\n' || c == '\r' || c == '\U{000B}' || c == '\U{000C}'
  }

  /** `s.split(sep)`: the pieces between separators, in order; never empty. */
  function Split(s: string, sep: char): (parts: seq<string>)
    ensures |parts| >= 1
    ensures forall k :: 0 <= k < |parts| ==> sep !in parts[k]
    decreases |s|
  {
    if |s| == 0 then [""]
    else
      var rest := Split(s[1..], sep);
      if s[0] == sep then [""] + rest
      else [[s[0]] + rest[0]] + rest[1..]
  }

  /** `sep.join(parts)`. */
  function Join(parts: seq<string>, sep: char): string
    decreases |parts|
  {
    if |parts| == 0 then ""
    else if |parts| == 1 then parts[0]
    else parts[0] + [sep] + Join(parts[1..], sep)
  }

  lemma {:induction false} SplitNoSeparator(p: string, sep: char)
    requires sep !in p
    ensures Split(p, sep) == [p]
    decreases |p|
  {
    if |p| > 0 {
      SplitNoSeparator(p[1..], sep);
      assert [p[0]] + p[1..] == p;
    }
  }

  lemma {:induction false} SplitAtFirstSeparator(p: string, sep: char, t: string)
    requires sep !in p
    ensures Split(p + [sep] + t, sep) == [p] + Split(t, sep)
    decreases |p|
  {
    var s := p + [sep] + t;
    if |p| == 0 {
      assert s[1..] == t;
    } else {
      assert s[1..] == p[1..] + [sep] + t;
      SplitAtFirstSeparator(p[1..], sep, t);
      assert [p[0]] + p[1..] == p;
    }
  }

  /** Splitting a join of separator-free pieces gives the pieces back. */
  lemma {:induction false} SplitJoin(parts: seq<string>, sep: char)
    requires |parts| >= 1
    requires forall k :: 0 <= k < |parts| ==> sep !in parts[k]
    ensures Split(Join(parts, sep), sep) == parts
    decreases |parts|
  {
    if |parts| == 1 {
      SplitNoSeparator(parts[0], sep);
    } else {
      SplitJoin(parts[1..], sep);
      SplitAtFirstSeparator(parts[0], sep, Join(parts[1..], sep));
      assert [parts[0]] + parts[1..] == parts;
    }
  }

  /** Joining what a split returns rebuilds the original text. */
  lemma {:induction false} JoinSplit(s: string, sep: char)
    ensures Join(Split(s, sep), sep) == s
    decreases |s|
  {
    if |s| > 0 {
      var rest := Split(s[1..], sep);
      JoinSplit(s[1..], sep);
      assert [s[0]] + s[1..] == s;
      if s[0] != sep {
        var parts := Split(s, sep);
        assert parts[1..] == rest[1..];
        if |rest| > 1 {
          assert rest == [rest[0]] + rest[1..];
        }
      }
    }
  }

  function TrimLeft(s: string): (r: string)
    ensures |r| <= |s| && r == s[|s| - |r|..]
    ensures |r| == 0 || !IsSpace(r[0])
    ensures forall k :: 0 <= k < |s| - |r| ==> IsSpace(s[k])
    decreases |s|
  {
    if |s| > 0 && IsSpace(s[0]) then TrimLeft(s[1..]) else s
  }

  function TrimRight(s: string): (r: string)
    ensures |r| <= |s| && r == s[..|r|]
    ensures |r| == 0 || !IsSpace(r[|r| - 1])
    ensures forall k :: |r| <= k < |s| ==> IsSpace(s[k])
    decreases |s|
  {
    if |s| > 0 && IsSpace(s[|s| - 1]) then TrimRight(s[..|s| - 1]) else s
  }

  /** No whitespace at either end. */
  predicate Stripped(s: string) {
    |s| == 0 || (!IsSpace(s[0]) && !IsSpace(s[|s| - 1]))
  }

  /** `s[i..j]` is what is left of `s` once the whitespace before `i` and
      from `j` on is cut away. */
  predicate TrimmedAt(s: string, i: int, j: int) {
    && 0 <= i <= j <= |s|
    && (forall k :: 0 <= k < i ==> IsSpace(s[k]))
    && (forall k :: j <= k < |s| ==> IsSpace(s[k]))
  }

  /** `s.strip()`: `s` with its leading and trailing whitespace cut away;
      what is left has no whitespace at either end. */
  function Strip(s: string): (r: string)
    ensures Stripped(r)
    ensures |r| <= |s|
    ensures Stripped(s) ==> r == s
  {
    var l := TrimLeft(s);
    var r := TrimRight(l);
    assert |r| > 0 ==> r[0] == l[0];
    assert Stripped(s) && |s| > 0 ==> l == s && r == s;
    r
  }

  /** The strip is an infix of `s` left by cutting whitespace only. */
  lemma StripCut(s: string)
    ensures exists i, j :: TrimmedAt(s, i, j) && Strip(s) == s[i..j]
  {
    var l := TrimLeft(s);
    var r := TrimRight(l);
    var i := |s| - |l|;
    assert r == s[i..i + |r|];
    assert TrimmedAt(s, i, i + |r|);
  }

  /** A non-empty stripped cut lies inside every other cut. */
  lemma CutInside(s: string, i: int, j: int, i': int, j': int)
    requires TrimmedAt(s, i, j) && TrimmedAt(s, i', j')
    requires i < j && Stripped(s[i..j])
    ensures i' <= i && j <= j'
  {
    assert s[i..j][0] == s[i] && s[i..j][j - i - 1] == s[j - 1];
  }

  /** The cut is unique: a stripped infix left by cutting whitespace only is
      the strip, so a piece is never shortened inside. */
  lemma StripUnique(s: string, i: int, j: int)
    requires TrimmedAt(s, i, j) && Stripped(s[i..j])
    ensures Strip(s) == s[i..j]
  {
    StripCut(s);
    var i', j' :| TrimmedAt(s, i', j') && Strip(s) == s[i'..j'];
    if i == j {
      CutOfSpaces(s, i, i', j');
    } else {
      CutInside(s, i, j, i', j');
      CutInside(s, i', j', i, j);
    }
  }

  /** A string of whitespace only has only the empty stripped cut. */
  lemma CutOfSpaces(s: string, i: int, i': int, j': int)
    requires TrimmedAt(s, i, i) && TrimmedAt(s, i', j') && Stripped(s[i'..j'])
    ensures i' == j'
  {
    StrippedStart(s, i', j');
  }

  lemma StrippedStart(s: string, i: int, j: int)
    requires 0 <= i <= j <= |s| && Stripped(s[i..j])
    ensures i < j ==> !IsSpace(s[i])
  {
    assert i < j ==> s[i..j][0] == s[i];
  }

  /** Decimal digits of `n`, most significant first, without leading zeros. */
  function NatToString(n: nat): (s: string)
    ensures |s| >= 1
    ensures forall k :: 0 <= k < |s| ==> '0' <= s[k] <= '9'
    decreases n
  {
    if n < 10 then [DigitChar(n)] else NatToString(n / 10) + [DigitChar(n % 10)]
  }

  function DigitChar(d: nat): (c: char)
    requires d < 10
    ensures '0' <= c <= '9'
  {
    ('0' as int + d) as char
  }

  function DigitValue(c: char): nat {
    if '0' <= c <= '9' then (c as int - '0' as int) else 0
  }

  /** Reads a string of decimal digits back as a number. */
  function ParseNat(s: string): nat
    decreases |s|
  {
    if |s| == 0 then 0 else ParseNat(s[..|s| - 1]) * 10 + DigitValue(s[|s| - 1])
  }

  lemma {:induction false} ParseNatToString(n: nat)
    ensures ParseNat(NatToString(n)) == n
    decreases n
  {
    var s := NatToString(n);
    if n >= 10 {
      var q, d := n / 10, n % 10;
      ParseNatToString(q);
      assert s == NatToString(q) + [DigitChar(d)];
      assert s[..|s| - 1] == NatToString(q);
      assert DigitValue(s[|s| - 1]) == d;
      assert n == q * 10 + d;
    }
  }

  lemma NatToStringInjective(m: nat, n: nat)
    requires NatToString(m) == NatToString(n)
    ensures m == n
  {
    ParseNatToString(m);
    ParseNatToString(n);
  }

  /** `f"{base} {n}"`. */
  function NumberedName(base: string, n: nat): string {
    base + " " + NatToString(n)
  }

  /** The counter a numbered name was made from (-1 if it is not one). */
  function CounterOf(base: string, name: string): int {
    if |name| > |base| + 1 && name[..|base| + 1] == base + " "
    then ParseNat(name[|base| + 1..])
    else -1
  }

  lemma CounterOfNumberedName(base: string, n: nat)
    ensures CounterOf(base, NumberedName(base, n)) == n
  {
    var name := NumberedName(base, n);
    assert name[..|base| + 1] == base + " ";
    assert name[|base| + 1..] == NatToString(n);
    ParseNatToString(n);
  }

  lemma {:induction false} SubsetCardinality<T>(a: set<T>, b: set<T>)
    requires a <= b
    ensures |a| <= |b|
    decreases |a|
  {
    if a != {} {
      var x :| x in a;
      SubsetCardinality(a - {x}, b - {x});
    }
  }

  /** One more taken name: the set of taken numbered names grows by one and
      stays inside the names that exist. */
  lemma FreshStep(base: string, count: nat, taken: set<string>, pool: set<string>)
    requires NumberedName(base, count) in pool
    requires taken <= pool && |taken| == count - 1
    requires forall x :: x in taken ==> CounterOf(base, x) < count
    ensures taken + {NumberedName(base, count)} <= pool
    ensures |taken + {NumberedName(base, count)}| <= |pool|
    ensures |taken + {NumberedName(base, count)}| == count
    ensures forall x :: x in taken + {NumberedName(base, count)} ==> CounterOf(base, x) < count + 1
  {
    CounterOfNumberedName(base, count);
    assert NumberedName(base, count) !in taken;
    SubsetCardinality(taken + {NumberedName(base, count)}, pool);
  }

  /** The name-counter loop of "create new script" and "add block": the
      first of "base 1", "base 2", ... that `existing` does not contain. */
  method FreshNumberedName(base: string, existing: seq<string>) returns (name: string, count: nat)
    ensures count >= 1 && name == NumberedName(base, count)
    ensures name !in existing
    ensures forall c :: 1 <= c < count ==> NumberedName(base, c) in existing
  {
    count := 1;
    name := NumberedName(base, count);
    ghost var pool := set x | x in existing;
    ghost var taken: set<string> := {};
    while name in existing
      invariant count >= 1 && name == NumberedName(base, count)
      invariant forall c :: 1 <= c < count ==> NumberedName(base, c) in existing
      invariant taken <= pool && |taken| == count - 1
      invariant forall x :: x in taken ==> CounterOf(base, x) < count
      decreases |pool| - |taken|
    {
      FreshStep(base, count, taken, pool);
      taken := taken + {name};
      count := count + 1;
      name := NumberedName(base, count);
    }
  }
}
