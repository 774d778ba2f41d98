/**
 A class-name string read as the list of class tokens it holds.

 The default merge strategy builds `"<base> <extension>"`, so the natural
 reading of a merged value is the sequence of pieces between single spaces,
 exactly what JavaScript's `s.split(' ')` returns (empty pieces included).
 `Join` is `parts.join(' ')`. `Join` undoes `Split` on every string;
 `Split` undoes `Join` on non-empty lists of space-free pieces.
 */
module ClassList {

  /** The pieces of `s` between single spaces; always at least one piece. */
  function Split(s: string): (r: seq<string>)
    ensures |r| >= 1
    ensures forall i :: 0 <= i < |r| ==> ' ' !in r[i]
    decreases |s|
  {
    if |s| == 0 then [""]
    else
      var rest := Split(s[1..]);
      if s[0] == ' ' then [""] + rest
      else [[s[0]] + rest[0]] + rest[1..]
  }

  /** The pieces glued back together with one space between neighbours. */
  function Join(parts: seq<string>): (s: string)
    decreases |parts|
  {
    if |parts| == 0 then ""
    else if |parts| == 1 then parts[0]
    else parts[0] + " " + Join(parts[1..])
  }

  /** A string without a space is a single piece. */
  lemma {:induction false} SplitNoSpace(p: string)
    requires ' ' !in p
    ensures Split(p) == [p]
    decreases |p|
  {
    if |p| > 0 {
      assert ' ' !in p[1..] by {
        forall j | 0 <= j < |p[1..]| ensures p[1..][j] != ' ' {
          assert p[1..][j] == p[j + 1];
        }
      }
      SplitNoSpace(p[1..]);
      assert [p[0]] + p[1..] == p;
    }
  }

  /** How a leading character contributes to the pieces. */
  lemma SplitCons(c: char, t: string)
    ensures c == ' ' ==> Split([c] + t) == [""] + Split(t)
    ensures c != ' ' ==> Split([c] + t) == [[c] + Split(t)[0]] + Split(t)[1..]
  {
    assert ([c] + t)[0] == c && ([c] + t)[1..] == t;
  }

  /** Gluing two strings with one space concatenates their piece lists:
     the separator adds exactly one boundary and nothing else. */
  lemma {:induction false} SplitAppend(a: string, b: string)
    ensures Split(a + " " + b) == Split(a) + Split(b)
    decreases |a|
  {
    if |a| == 0 {
      assert a + " " + b == [' '] + b;
      SplitCons(' ', b);
      assert Split(a) == [""];
    } else {
      var c, t := a[0], a[1..];
      assert a == [c] + t;
      assert a + " " + b == [c] + (t + " " + b);
      SplitAppend(t, b);
      SplitCons(c, t);
      SplitCons(c, t + " " + b);
      var rt, rb := Split(t), Split(b);
      if c != ' ' {
        assert (rt + rb)[0] == rt[0];
        assert (rt + rb)[1..] == rt[1..] + rb;
      }
    }
  }

  /** Splitting and joining again gives back the original string. */
  lemma {:induction false} JoinSplit(s: string)
    ensures Join(Split(s)) == s
    decreases |s|
  {
    if |s| > 0 {
      var rest := Split(s[1..]);
      JoinSplit(s[1..]);
      if s[0] == ' ' {
        assert Split(s) == [""] + rest;
        assert (([""] + rest)[1..]) == rest;
        assert Join(Split(s)) == "" + " " + Join(rest);
        assert [s[0]] + s[1..] == s;
      } else {
        var p := [[s[0]] + rest[0]] + rest[1..];
        assert Split(s) == p;
        if |rest| == 1 {
          assert Join(p) == [s[0]] + rest[0];
          assert Join(rest) == rest[0];
        } else {
          assert p[1..] == rest[1..];
          assert Join(p) == [s[0]] + rest[0] + " " + Join(rest[1..]);
          assert Join(rest) == rest[0] + " " + Join(rest[1..]);
        }
        assert [s[0]] + s[1..] == s;
      }
    }
  }

  /** Joining space-free pieces and splitting again gives back the pieces. */
  lemma {:induction false} SplitJoin(parts: seq<string>)
    requires |parts| >= 1
    requires forall i :: 0 <= i < |parts| ==> ' ' !in parts[i]
    ensures Split(Join(parts)) == parts
    decreases |parts|
  {
    SplitNoSpace(parts[0]);
    if |parts| > 1 {
      SplitJoin(parts[1..]);
      SplitAppend(parts[0], Join(parts[1..]));
      assert [parts[0]] + parts[1..] == parts;
    }
  }
}
