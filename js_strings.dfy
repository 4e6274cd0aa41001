/** The two JavaScript string builtins the store relies on:
    `String.prototype.split` with a one-character separator and
    `Array.prototype.join`. */
module JsStrings {

  /** `parts.join(sep)`: the parts with `sep` between consecutive ones. Two parts
      are glued around one separator; joining separator-free parts with a
      one-character separator puts exactly one separator between each pair. */
  function Join(parts: seq<string>, sep: string): (r: string)
    ensures |parts| == 2 ==> r == parts[0] + sep + parts[1]
    ensures |sep| == 1 && |parts| >= 1 && (forall i :: 0 <= i < |parts| ==> sep[0] !in parts[i])
            ==> Count(r, sep[0]) == |parts| - 1
  {
    if |parts| == 0 then ""
    else if |parts| == 1 then
      if |sep| == 1 then CountZero(parts[0], sep[0]); parts[0] else parts[0]
    else
      var tail := Join(parts[1..], sep);
      CountAcrossSeparator(parts[0], sep, tail);
      parts[0] + sep + tail
  }

  /** A separator-free head and a one-character separator add one occurrence. */
  lemma CountAcrossSeparator(head: string, sep: string, tail: string)
    ensures |sep| == 1 && sep[0] !in head ==>
              Count(head + sep + tail, sep[0]) == 1 + Count(tail, sep[0])
  {
    if |sep| == 1 && sep[0] !in head {
      CountZero(head, sep[0]);
      CountAppend(head, sep, sep[0]);
      CountAppend(head + sep, tail, sep[0]);
    }
  }

  /** Counting distributes over concatenation. */
  lemma {:induction false} CountAppend(a: string, b: string, c: char)
    ensures Count(a + b, c) == Count(a, c) + Count(b, c)
  {
    if a != [] {
      assert (a + b)[1..] == a[1..] + b;
      CountAppend(a[1..], b, c);
    } else {
      assert a + b == b;
    }
  }

  /** `s.split(sep)`: the maximal separator-free pieces of `s`, in order.
      As in JavaScript, the result is never empty (`"".split(":")` is `[""]`)
      and there is one more piece than there are separators. */
  function Split(s: string, sep: char): (parts: seq<string>)
    ensures |parts| == Count(s, sep) + 1
    ensures forall i :: 0 <= i < |parts| ==> sep !in parts[i]
    ensures Join(parts, [sep]) == s
    decreases |s|
  {
    if s == [] then [""]
    else
      var rest := Split(s[1..], sep);
      if s[0] == sep then
        [""] + rest
      else
        JoinExtendHead(s[0], rest, [sep]);
        [[s[0]] + rest[0]] + rest[1..]
  }

  /** Number of occurrences of `c` in `s`. */
  function Count(s: string, c: char): nat
  {
    if s == [] then 0 else (if s[0] == c then 1 else 0) + Count(s[1..], c)
  }

  lemma {:induction false} CountZero(s: string, c: char)
    ensures Count(s, c) == 0 <==> c !in s
  {
    if s != [] {
      CountZero(s[1..], c);
      assert s == [s[0]] + s[1..];
    }
  }

  /** Prepending a character to the first part prepends it to the joined text. */
  lemma JoinExtendHead(c: char, parts: seq<string>, sep: string)
    requires |parts| >= 1
    ensures Join([[c] + parts[0]] + parts[1..], sep) == [c] + Join(parts, sep)
  {
    var q := [[c] + parts[0]] + parts[1..];
    assert q[1..] == parts[1..];
  }

  /** Text without the separator splits into itself alone. */
  lemma {:induction false} SplitWithoutSeparator(s: string, sep: char)
    requires sep !in s
    ensures Split(s, sep) == [s]
  {
    CountZero(s, sep);
  }

  /** A separator-free head followed by the separator splits off as the first part. */
  lemma {:induction false} SplitAfterHead(p: string, sep: char, q: string)
    requires sep !in p
    ensures Split(p + [sep] + q, sep) == [p] + Split(q, sep)
    decreases |p|
  {
    var s := p + [sep] + q;
    if p == [] {
      assert s[1..] == q;
    } else {
      assert s[1..] == p[1..] + [sep] + q;
      SplitAfterHead(p[1..], sep, q);
      assert [p[0]] + p[1..] == p;
    }
  }

  /** `[p, q].join(sep).split(sep)` gives back `[p, q]` when neither part holds the separator. */
  lemma SplitJoinPair(p: string, sep: char, q: string)
    requires sep !in p && sep !in q
    ensures Split(Join([p, q], [sep]), sep) == [p, q]
  {
    assert Join([p, q], [sep]) == p + [sep] + q;
    SplitAfterHead(p, sep, q);
    SplitWithoutSeparator(q, sep);
  }
}
