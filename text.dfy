/**
 * `" ".join(parts)`, which the script uses to assemble both the transcript
 * and the translation, together with two operations that appear only in
 * the proofs: its inverse `s.split(" ")`, and the plain concatenation
 * `"".join(parts)` that undoes the chunking.
 */
module Text {

  /** Python's `" ".join(parts)`: the parts in order, one space between neighbours. */
  function Join(parts: seq<string>): string
  {
    if |parts| == 0 then ""
    else if |parts| == 1 then parts[0]
    else parts[0] + " " + Join(parts[1..])
  }

  /**
   * Python's `s.split(" ")` with an explicit separator: every space ends a
   * field, so adjacent spaces give empty fields and "" gives [""].
   */
  function Split(s: string): (fields: seq<string>)
    ensures |fields| > 0
    decreases |s|
  {
    if |s| == 0 then [""]
    else if s[0] == ' ' then [""] + Split(s[1..])
    else
      var rest := Split(s[1..]);
      [[s[0]] + rest[0]] + rest[1..]
  }

  /** Python's `"".join(parts)`: the parts concatenated with nothing between. */
  function Concat(parts: seq<string>): string
  {
    if |parts| == 0 then "" else parts[0] + Concat(parts[1..])
  }

  /** No part holds a space, so the spaces of the join are exactly its separators. */
  ghost predicate SpaceFree(parts: seq<string>)
  {
    forall i :: 0 <= i < |parts| ==> ' ' !in parts[i]
  }

  /** Appending one more part adds one separator and the part itself. */
  lemma {:induction false} JoinSnoc(parts: seq<string>, p: string)
    requires |parts| > 0
    ensures Join(parts + [p]) == Join(parts) + " " + p
  {
    if |parts| == 1 {
      assert parts + [p] == [parts[0], p];
      assert [parts[0], p][1..] == [p];
    } else {
      JoinSnoc(parts[1..], p);
      assert (parts + [p])[1..] == parts[1..] + [p];
    }
  }

  /** The joined text is the parts' characters plus one space per gap between parts. */
  lemma {:induction false} JoinLength(parts: seq<string>)
    ensures |parts| > 0 ==> |Join(parts)| == |Concat(parts)| + |parts| - 1
    ensures |parts| == 0 ==> Join(parts) == ""
  {
    if |parts| > 1 {
      JoinLength(parts[1..]);
    }
  }

  /**
   * The join is empty exactly when there is nothing to join or the only
   * part is empty; two empty parts already join to " ".
   */
  lemma JoinEmptyIff(parts: seq<string>)
    ensures Join(parts) == "" <==> |parts| == 0 || (|parts| == 1 && parts[0] == "")
  {
    JoinLength(parts);
  }

  /** Splitting one space-free field off the front of a string. */
  lemma {:induction false} SplitField(p: string, rest: string)
    requires ' ' !in p
    ensures Split(p + " " + rest) == [p] + Split(rest)
    decreases |p|
  {
    if |p| == 0 {
      assert p + " " + rest == [' '] + rest;
      assert ([' '] + rest)[1..] == rest;
    } else {
      var s := p + " " + rest;
      assert s[0] == p[0] && s[1..] == p[1..] + " " + rest;
      SplitField(p[1..], rest);
      assert [p[0]] + p[1..] == p;
    }
  }

  /** Splitting on the separator recovers the parts, when no part holds a space. */
  lemma {:induction false} SplitJoin(parts: seq<string>)
    requires |parts| > 0 && SpaceFree(parts)
    ensures Split(Join(parts)) == parts
  {
    if |parts| == 1 {
      SplitWhole(parts[0]);
    } else {
      SplitField(parts[0], Join(parts[1..]));
      SplitJoin(parts[1..]);
    }
  }

  /** A string without a space is a single field. */
  lemma {:induction false} SplitWhole(p: string)
    requires ' ' !in p
    ensures Split(p) == [p]
    decreases |p|
  {
    if |p| > 0 {
      SplitWhole(p[1..]);
      assert [p[0]] + p[1..] == p;
    }
  }

  /** Joining the fields of any string with single spaces gives the string back. */
  lemma {:induction false} JoinSplit(s: string)
    ensures Join(Split(s)) == s
    decreases |s|
  {
    if |s| > 0 {
      JoinSplit(s[1..]);
      var rest := Split(s[1..]);
      if s[0] == ' ' {
        assert ([""] + rest)[1..] == rest;
        assert s == " " + s[1..];
      } else {
        var fields := [[s[0]] + rest[0]] + rest[1..];
        if |rest| == 1 {
          assert fields == [[s[0]] + rest[0]];
        } else {
          assert fields[1..] == rest[1..];
          assert Join(rest) == rest[0] + " " + Join(rest[1..]);
        }
      }
    }
  }

  /** Concatenation distributes over appending lists of parts. */
  lemma {:induction false} ConcatAppend(a: seq<string>, b: seq<string>)
    ensures Concat(a + b) == Concat(a) + Concat(b)
  {
    if |a| > 0 {
      ConcatAppend(a[1..], b);
      assert (a + b)[1..] == a[1..] + b;
    } else {
      assert a + b == b;
    }
  }
}
