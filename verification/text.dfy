/** The few Python string operations the scanner uses: `str.split` on a
    one-character separator, `str.join`, and the `in` substring test. */
module Text {

  /** Position of the first `c` in `s`, or `|s|` when `s` has none. */
  function FirstIndex(s: string, c: char): (k: nat)
    ensures k <= |s|
    ensures k < |s| ==> s[k] == c
    ensures c !in s[..k]
  {
    if |s| == 0 || s[0] == c then 0
    else
      var k := 1 + FirstIndex(s[1..], c);
      assert s[..k] == [s[0]] + s[1..][..k - 1];
      k
  }

  /** Python's `s.split(c)`: the fields between the separators, so always
      one more field than there are separators. */
  function Split(s: string, c: char): (fields: seq<string>)
    ensures |fields| >= 1
    ensures forall i :: 0 <= i < |fields| ==> c !in fields[i]
    decreases |s|
  {
    var k := FirstIndex(s, c);
    if k == |s| then
      assert s[..k] == s;
      [s]
    else
      [s[..k]] + Split(s[k + 1..], c)
  }

  /** There is one more field than there are separators. */
  lemma {:induction false} SplitCount(s: string, c: char)
    ensures |Split(s, c)| == multiset(s)[c] + 1
    decreases |s|
  {
    var k := FirstIndex(s, c);
    if k == |s| {
      assert s[..k] == s;
    } else {
      SplitCount(s[k + 1..], c);
      assert s == s[..k] + [c] + s[k + 1..];
    }
  }

  /** Python's `sep.join(parts)`. */
  function Join(parts: seq<string>, sep: string): string
  {
    if |parts| == 0 then ""
    else if |parts| == 1 then parts[0]
    else parts[0] + sep + Join(parts[1..], sep)
  }

  /** `pat` occurs in `s` starting at position `i`. */
  ghost predicate OccursAt(s: string, pat: string, i: nat)
  {
    i + |pat| <= |s| && s[i..i + |pat|] == pat
  }

  /** Python's `pat in s` on strings. */
  function Contains(s: string, pat: string): (found: bool)
    ensures found ==> |pat| <= |s|
    ensures |pat| == 0 ==> found
    decreases |s|
  {
    |pat| <= |s| && (s[..|pat|] == pat || Contains(s[1..], pat))
  }

  /** A separator-free prefix is found again as the first field. */
  lemma FirstIndexAfter(a: string, c: char, t: string)
    requires c !in a
    ensures FirstIndex(a + [c] + t, c) == |a|
  {
    var s := a + [c] + t;
    assert s[|a|] == c;
    assert s[..|a|] == a;
  }

  /** Joining the fields of a split gives back the string. */
  lemma {:induction false} JoinSplit(s: string, c: char)
    ensures Join(Split(s, c), [c]) == s
    decreases |s|
  {
    var k := FirstIndex(s, c);
    if k == |s| {
      assert Split(s, c) == [s];
    } else {
      var tail := s[k + 1..];
      var rest := Split(tail, c);
      var fields := [s[..k]] + rest;
      assert Split(s, c) == fields;
      assert fields[1..] == rest;
      JoinSplit(tail, c);
      assert Join(fields, [c]) == s[..k] + [c] + Join(rest, [c]);
      assert s == s[..k] + [c] + tail;
    }
  }

  /** Splitting a join of separator-free parts gives back the parts. */
  lemma {:induction false} SplitJoin(parts: seq<string>, c: char)
    requires |parts| > 0
    requires forall i :: 0 <= i < |parts| ==> c !in parts[i]
    ensures Split(Join(parts, [c]), c) == parts
  {
    var head := parts[0];
    if |parts| == 1 {
      FirstIndexAbsent(head, c);
      assert head[..|head|] == head;
      assert Split(head, c) == [head];
    } else {
      var tail := Join(parts[1..], [c]);
      var s := head + [c] + tail;
      assert Join(parts, [c]) == s;
      FirstIndexAfter(head, c, tail);
      assert s[..|head|] == head;
      assert s[|head| + 1..] == tail;
      assert Split(s, c) == [head] + Split(tail, c);
      SplitJoin(parts[1..], c);
      assert parts == [head] + parts[1..];
    }
  }

  lemma FirstIndexAbsent(s: string, c: char)
    requires c !in s
    ensures FirstIndex(s, c) == |s|
  {
  }

  /** A join of four parts, written out. */
  lemma JoinFour(w: string, x: string, y: string, z: string, sep: string)
    ensures Join([w, x, y, z], sep) == w + sep + x + sep + y + sep + z
  {
    var p := [w, x, y, z];
    assert p[1..] == [x, y, z];
    assert p[1..][1..] == [y, z];
    assert [y, z][1..] == [z];
    assert Join([y, z], sep) == y + sep + z;
    assert Join([x, y, z], sep) == x + sep + (y + sep + z);
    assert Join(p, sep) == w + sep + (x + sep + (y + sep + z));
  }

  /** The first part of a join is a prefix of it. */
  lemma JoinStartsWith(parts: seq<string>, sep: string)
    requires |parts| > 0
    ensures parts[0] <= Join(parts, sep)
  {
  }

  /** The first three parts, with their separators, begin the join. */
  lemma JoinStartsWithThree(parts: seq<string>, sep: string)
    requires |parts| >= 3
    ensures parts[0] + sep + parts[1] + sep + parts[2] <= Join(parts, sep)
  {
    var r2 := Join(parts[2..], sep);
    JoinStartsWith(parts[2..], sep);
    assert parts[1..][1..] == parts[2..];
    var r1 := Join(parts[1..], sep);
    assert r1 == parts[1] + sep + r2;
    PrefixExtend(parts[1] + sep, parts[2], r2);
    assert Join(parts, sep) == parts[0] + sep + r1;
    PrefixExtend(parts[0] + sep, parts[1] + sep + parts[2], r1);
    assert parts[0] + sep + (parts[1] + sep + parts[2]) == parts[0] + sep + parts[1] + sep + parts[2];
  }

  lemma PrefixExtend(x: string, a: string, b: string)
    requires a <= b
    ensures x + a <= x + b
  {
  }

  /** `Contains` is exactly "occurs at some position". */
  lemma {:induction false} ContainsIff(s: string, pat: string)
    ensures Contains(s, pat) <==> exists i: nat :: OccursAt(s, pat, i)
    decreases |s|
  {
    if |pat| > |s| {
      forall i: nat
        ensures !OccursAt(s, pat, i)
      {
      }
    } else if s[..|pat|] == pat {
      assert OccursAt(s, pat, 0);
    } else {
      ContainsIff(s[1..], pat);
      if Contains(s[1..], pat) {
        var i: nat :| OccursAt(s[1..], pat, i);
        assert s[1..][i..i + |pat|] == s[i + 1..i + 1 + |pat|];
        assert OccursAt(s, pat, i + 1);
      } else {
        forall i: nat | OccursAt(s, pat, i)
          ensures false
        {
          assert i > 0;
          assert s[1..][i - 1..i - 1 + |pat|] == s[i..i + |pat|];
          assert OccursAt(s[1..], pat, i - 1);
        }
      }
    }
  }
}
