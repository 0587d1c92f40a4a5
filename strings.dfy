/** The parts of Go's `strings` package the controller relies on. */
module Strings {

  /** strings.Split(s, "."): the dot-separated segments of `s`; never empty. */
  function Split(s: string): (parts: seq<string>)
    ensures |parts| >= 1
    decreases |s|
  {
    if s == [] then [[]]
    else
      var rest := Split(s[1..]);
      if s[0] == '.' then [[]] + rest else [[s[0]] + rest[0]] + rest[1..]
  }

  /** strings.Join(parts, "."). */
  function Join(parts: seq<string>): string
    requires |parts| >= 1
    decreases |parts|
  {
    if |parts| == 1 then parts[0] else parts[0] + "." + Join(parts[1..])
  }

  predicate DotFree(s: string) {
    forall i :: 0 <= i < |s| ==> s[i] != '.'
  }

  lemma {:induction false} JoinConsFirst(c: char, parts: seq<string>)
    requires |parts| >= 1
    ensures Join([[c] + parts[0]] + parts[1..]) == [c] + Join(parts)
  {
    var ps := [[c] + parts[0]] + parts[1..];
    assert ps[1..] == parts[1..];
    if |parts| > 1 {
      assert [c] + parts[0] + "." + Join(parts[1..]) == [c] + (parts[0] + "." + Join(parts[1..]));
    }
  }

  /** Joining the segments gives back the string. */
  lemma {:induction false} JoinSplit(s: string)
    ensures Join(Split(s)) == s
    decreases |s|
  {
    if s != [] {
      var rest := Split(s[1..]);
      JoinSplit(s[1..]);
      if s[0] == '.' {
        assert ([[]] + rest)[1..] == rest;
        assert s == "." + s[1..];
      } else {
        JoinConsFirst(s[0], rest);
        assert s == [s[0]] + s[1..];
      }
    }
  }

  /** A dot-free prefix lengthens the first segment and leaves the others. */
  lemma {:induction false} SplitDotFreePrefix(p: string, s: string)
    requires DotFree(p)
    ensures Split(p + s) == [p + Split(s)[0]] + Split(s)[1..]
    decreases |p|
  {
    if p != [] {
      assert (p + s)[1..] == p[1..] + s;
      SplitDotFreePrefix(p[1..], s);
      var rest := Split(p[1..] + s);
      assert rest[0] == p[1..] + Split(s)[0];
      assert rest[1..] == Split(s)[1..];
      assert (p + s)[0] == p[0] != '.';
      assert Split(p + s) == [[p[0]] + rest[0]] + rest[1..];
      assert [p[0]] + (p[1..] + Split(s)[0]) == p + Split(s)[0];
    } else {
      assert p + s == s && p + Split(s)[0] == Split(s)[0];
      assert Split(s) == [Split(s)[0]] + Split(s)[1..];
    }
  }

  /** Segments without dots are recovered by splitting their join. */
  lemma {:induction false} SplitJoin(parts: seq<string>)
    requires |parts| >= 1
    requires forall i :: 0 <= i < |parts| ==> DotFree(parts[i])
    ensures Split(Join(parts)) == parts
    decreases |parts|
  {
    if |parts| == 1 {
      SplitDotFreePrefix(parts[0], "");
      assert parts[0] + "" == parts[0];
    } else {
      var tail := Join(parts[1..]);
      SplitJoin(parts[1..]);
      assert parts[0] + "." + tail == parts[0] + ("." + tail);
      SplitDotFreePrefix(parts[0], "." + tail);
      assert ("." + tail)[1..] == tail;
      assert Split("." + tail) == [[]] + parts[1..];
      assert Split(Join(parts)) == [parts[0] + []] + parts[1..];
      assert parts[0] + [] == parts[0];
      assert parts == [parts[0]] + parts[1..];
    }
  }

  /** Splitting a string with one more leading character: a dot opens a new segment, anything else extends the first. */
  lemma SplitCons(c: char, s: string)
    ensures Split([c] + s) == if c == '.' then [[]] + Split(s) else [[c] + Split(s)[0]] + Split(s)[1..]
  {
    assert ([c] + s)[1..] == s;
  }

  /** Extending the first segment commutes with appending further segments. */
  lemma ExtendFirstAppend(c: char, left: seq<string>, right: seq<string>)
    requires |left| >= 1
    ensures [[c] + (left + right)[0]] + (left + right)[1..] == ([[c] + left[0]] + left[1..]) + right
  {
    assert (left + right)[1..] == left[1..] + right;
  }

  /** Splitting at an added dot gives the segments of the left side followed by those of the right. */
  lemma {:induction false} SplitAroundDot(a: string, b: string)
    ensures Split(a + "." + b) == Split(a) + Split(b)
    ensures |Split(a + "." + b)| == |Split(a)| + |Split(b)|
    decreases |a|
  {
    if a == [] {
      assert a + "." + b == ['.'] + b;
      SplitCons('.', b);
    } else {
      var c, t := a[0], a[1..];
      assert a == [c] + t;
      assert a + "." + b == [c] + (t + "." + b);
      SplitAroundDot(t, b);
      SplitCons(c, t);
      SplitCons(c, t + "." + b);
      if c == '.' {
        assert [[]] + (Split(t) + Split(b)) == ([[]] + Split(t)) + Split(b);
      } else {
        ExtendFirstAppend(c, Split(t), Split(b));
      }
    }
  }

  /** strings.Contains(s, sub). */
  function HasSubstring(s: string, sub: string): bool
    decreases |s|
  {
    |sub| <= |s| && (s[..|sub|] == sub || HasSubstring(s[1..], sub))
  }

  /** A string contains each of its suffixes. */
  lemma {:induction false} HasOwnSuffix(prefix: string, sub: string)
    ensures HasSubstring(prefix + sub, sub)
    decreases |prefix|
  {
    if prefix != [] {
      assert (prefix + sub)[1..] == prefix[1..] + sub;
      HasOwnSuffix(prefix[1..], sub);
    }
  }
}
