/** The string operations the configuration reader and the clone-path
    derivation are built from, with the meaning Python gives them:
    `s.split(c)` for a one-character separator, `c.join(parts)` and
    `s.strip(chars)`. */
module Text {

  /** `s.split(c)`: the fields of `s` between the occurrences of `c`, in
      order. There is always one field more than there are separators, and no
      field contains the separator. */
  function Split(s: string, c: char): (parts: seq<string>)
    ensures |parts| >= 1
    ensures forall i :: 0 <= i < |parts| ==> c !in parts[i]
    decreases |s|
  {
    if s == [] then [""]
    else
      var rest := Split(s[1..], c);
      if s[0] == c then [""] + rest
      else [[s[0]] + rest[0]] + rest[1..]
  }

  /** A split has one field more than the string has separators. */
  lemma {:induction false} SplitCount(s: string, c: char)
    ensures |Split(s, c)| == multiset(s)[c] + 1
    decreases |s|
  {
    if s != [] {
      SplitCount(s[1..], c);
      assert s == [s[0]] + s[1..];
      assert multiset(s) == multiset{s[0]} + multiset(s[1..]);
    }
  }

  /** `c.join(parts)`: the parts with one separator between neighbours. */
  function Join(parts: seq<string>, c: char): string
    decreases |parts|
  {
    if parts == [] then ""
    else if |parts| == 1 then parts[0]
    else parts[0] + [c] + Join(parts[1..], c)
  }

  /** An empty first field adds one separator in front of the join. */
  lemma JoinEmptyFirst(rest: seq<string>, c: char)
    requires |rest| >= 1
    ensures Join([""] + rest, c) == [c] + Join(rest, c)
  {
    assert ([""] + rest)[1..] == rest;
    assert "" + [c] + Join(rest, c) == [c] + Join(rest, c);
  }

  /** A character glued to the front of the first field is in front of the
      join. */
  lemma JoinGlued(x: char, rest: seq<string>, c: char)
    requires |rest| >= 1
    ensures Join([[x] + rest[0]] + rest[1..], c) == [x] + Join(rest, c)
  {
    var parts := [[x] + rest[0]] + rest[1..];
    if |rest| > 1 {
      assert parts[1..] == rest[1..];
      assert Join(parts, c) == [x] + rest[0] + [c] + Join(rest[1..], c);
    }
  }

  /** Joining the fields of a split gives back the string that was split. */
  lemma {:induction false} JoinSplit(s: string, c: char)
    ensures Join(Split(s, c), c) == s
    decreases |s|
  {
    if s != [] {
      var rest := Split(s[1..], c);
      JoinSplit(s[1..], c);
      if s[0] == c {
        JoinEmptyFirst(rest, c);
      } else {
        JoinGlued(s[0], rest, c);
      }
      assert s == [s[0]] + s[1..];
    }
  }

  /** A string that does not contain the separator splits into one field,
      itself, after any prefix is glued to it. */
  lemma {:induction false} SplitPrefix(p: string, t: string, c: char)
    requires c !in p
    ensures Split(p + t, c) == [p + Split(t, c)[0]] + Split(t, c)[1..]
    decreases |p|
  {
    if p != [] {
      assert (p + t)[1..] == p[1..] + t;
      assert (p + t)[0] == p[0];
      SplitPrefix(p[1..], t, c);
      assert [p[0]] + (p[1..] + Split(t, c)[0]) == p + Split(t, c)[0];
    } else {
      assert p + t == t;
      assert p + Split(t, c)[0] == Split(t, c)[0];
      assert [p + Split(t, c)[0]] + Split(t, c)[1..] == Split(t, c);
    }
  }

  /** Splitting a join of separator-free parts gives back the parts: together
      with JoinSplit, the fields of a split are the only separator-free
      decomposition of the string. */
  lemma {:induction false} SplitJoin(parts: seq<string>, c: char)
    requires |parts| >= 1
    requires forall i :: 0 <= i < |parts| ==> c !in parts[i]
    ensures Split(Join(parts, c), c) == parts
    decreases |parts|
  {
    if |parts| == 1 {
      SplitPrefix(parts[0], "", c);
      assert parts[0] + "" == parts[0];
    } else {
      var tail := Join(parts[1..], c);
      SplitJoin(parts[1..], c);
      assert Join(parts, c) == parts[0] + ([c] + tail);
      SplitPrefix(parts[0], [c] + tail, c);
      assert ([c] + tail)[1..] == tail;
      assert Split([c] + tail, c) == [""] + parts[1..];
      assert parts[0] + "" == parts[0];
      assert parts == [parts[0]] + parts[1..];
    }
  }

  /** A separator followed by separator-free text adds that text as the last
      field. */
  lemma {:induction false} SplitAppendLast(p: string, name: string, c: char)
    requires c !in name
    ensures Split(p + [c] + name, c) == Split(p, c) + [name]
    decreases |p|
  {
    if p == [] {
      assert p + [c] + name == [c] + name;
      assert ([c] + name)[1..] == name;
      SplitPrefix(name, "", c);
      assert name + "" == name;
    } else {
      assert (p + [c] + name)[0] == p[0];
      assert (p + [c] + name)[1..] == p[1..] + [c] + name;
      SplitAppendLast(p[1..], name, c);
    }
  }

  /** The last of two or more joined parts follows the last separator. */
  lemma {:induction false} JoinLast(parts: seq<string>, c: char)
    requires |parts| >= 2
    ensures Join(parts, c) == Join(parts[..|parts| - 1], c) + [c] + parts[|parts| - 1]
    decreases |parts|
  {
    if |parts| > 2 {
      JoinLast(parts[1..], c);
      assert parts[1..][..|parts| - 2] == parts[..|parts| - 1][1..];
    }
  }

  /** The length of the longest prefix of `s` made of `chars`. */
  function Leading(s: string, chars: string): (n: nat)
    ensures n <= |s|
    ensures forall k :: 0 <= k < n ==> s[k] in chars
    ensures n == |s| || s[n] !in chars
    decreases |s|
  {
    if s != [] && s[0] in chars then 1 + Leading(s[1..], chars) else 0
  }

  /** The length of the longest suffix of `s` made of `chars`. */
  function Trailing(s: string, chars: string): (n: nat)
    ensures n <= |s|
    ensures forall k :: |s| - n <= k < |s| ==> s[k] in chars
    ensures n == |s| || s[|s| - n - 1] !in chars
    decreases |s|
  {
    if s != [] && s[|s| - 1] in chars then 1 + Trailing(s[..|s| - 1], chars) else 0
  }

  /** `s.strip(chars)`: `s` without its leading and trailing characters from
      `chars`. */
  function Strip(s: string, chars: string): string
  {
    var t := s[Leading(s, chars)..];
    t[..|t| - Trailing(t, chars)]
  }

  /** The leading run of `chars` is determined by where the first other
      character stands. */
  lemma {:induction false} LeadingExact(s: string, chars: string, n: nat)
    requires n <= |s|
    requires forall k :: 0 <= k < n ==> s[k] in chars
    requires n == |s| || s[n] !in chars
    ensures Leading(s, chars) == n
    decreases n
  {
    if n > 0 {
      LeadingExact(s[1..], chars, n - 1);
    }
  }

  /** The trailing run of `chars` is determined by where the last other
      character stands. */
  lemma {:induction false} TrailingExact(s: string, chars: string, n: nat)
    requires n <= |s|
    requires forall k :: |s| - n <= k < |s| ==> s[k] in chars
    requires n == |s| || s[|s| - n - 1] !in chars
    ensures Trailing(s, chars) == n
    decreases n
  {
    if n > 0 {
      TrailingExact(s[..|s| - 1], chars, n - 1);
    }
  }

  /** Strip removes exactly the padding made of `chars` around a text that
      neither begins nor ends with one of them. */
  lemma StripPadded(p: string, x: string, q: string, chars: string)
    requires forall k :: 0 <= k < |p| ==> p[k] in chars
    requires forall k :: 0 <= k < |q| ==> q[k] in chars
    requires x != [] && x[0] !in chars && x[|x| - 1] !in chars
    ensures Strip(p + x + q, chars) == x
  {
    var s := p + x + q;
    LeadingExact(s, chars, |p|);
    var t := s[|p|..];
    assert t == x + q;
    TrailingExact(t, chars, |q|);
    assert t[..|t| - |q|] == x;
  }
}
