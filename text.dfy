/**
 * The string operations the path code relies on, written as Python defines them:
 * `str.startswith`, `str.split('/')`, `sep.join(parts)` and `list.reverse()`.
 */
module Text {

  const SEP: char := '/'

  /** `s.startswith(prefix)` */
  predicate StartsWith(s: string, prefix: string) {
    |prefix| <= |s| && s[..|prefix|] == prefix
  }

  /**
   * `s.split('/')`: the pieces between separators, in order. There is always at least one
   * piece; the empty string splits to `[""]` and every separator starts a new piece.
   */
  function Split(s: string): (parts: seq<string>)
    ensures |parts| >= 1
  {
    if |s| == 0 then [""]
    else
      var rest := Split(s[1..]);
      if s[0] == SEP then [""] + rest
      else [[s[0]] + rest[0]] + rest[1..]
  }

  /** `sep.join(parts)` */
  function Join(parts: seq<string>, sep: string): string {
    if |parts| == 0 then ""
    else if |parts| == 1 then parts[0]
    else parts[0] + sep + Join(parts[1..], sep)
  }

  /** The list reversed, as `list.reverse()` leaves it. */
  function Reverse<T>(s: seq<T>): seq<T> {
    if |s| == 0 then [] else [s[|s| - 1]] + Reverse(s[..|s| - 1])
  }

  lemma ReverseSnoc<T>(s: seq<T>, x: T)
    ensures Reverse(s + [x]) == [x] + Reverse(s)
  {
    assert (s + [x])[..|s|] == s;
  }

  /** A string without a separator is a single piece. */
  lemma {:induction false} SplitPlain(s: string)
    requires SEP !in s
    ensures Split(s) == [s]
  {
    if |s| > 0 {
      assert SEP !in s[1..];
      SplitPlain(s[1..]);
      assert s[0] != SEP;
      assert [s[0]] + s[1..] == s;
    }
  }

  /** Splitting at the first separator peels off the piece before it. */
  lemma {:induction false} SplitAt(x: string, y: string)
    requires SEP !in x
    ensures Split(x + [SEP] + y) == [x] + Split(y)
  {
    if |x| == 0 {
      assert x + [SEP] + y == [SEP] + y;
      assert ([SEP] + y)[1..] == y;
    } else {
      assert (x + [SEP] + y)[1..] == x[1..] + [SEP] + y;
      assert SEP !in x[1..];
      SplitAt(x[1..], y);
      assert [x[0]] + x[1..] == x;
    }
  }

  /** Splitting a joined list gives the list back when no piece holds a separator. */
  lemma {:induction false} SplitJoin(parts: seq<string>)
    requires |parts| >= 1
    requires forall i :: 0 <= i < |parts| ==> SEP !in parts[i]
    ensures Split(Join(parts, [SEP])) == parts
  {
    if |parts| == 1 {
      SplitPlain(parts[0]);
    } else {
      SplitJoin(parts[1..]);
      SplitAt(parts[0], Join(parts[1..], [SEP]));
      assert [parts[0]] + parts[1..] == parts;
    }
  }

  /** Joining the pieces of a split gives the string back, whatever it holds. */
  lemma {:induction false} JoinSplit(s: string)
    ensures Join(Split(s), [SEP]) == s
  {
    if |s| > 0 {
      var rest := Split(s[1..]);
      JoinSplit(s[1..]);
      if s[0] == SEP {
        assert Split(s) == [""] + rest;
        assert ([""] + rest)[1..] == rest;
        assert Join(Split(s), [SEP]) == "" + [SEP] + Join(rest, [SEP]);
      } else {
        var head := [[s[0]] + rest[0]] + rest[1..];
        assert Split(s) == head;
        if |rest| == 1 {
          assert Join(head, [SEP]) == [s[0]] + rest[0];
        } else {
          assert head[1..] == rest[1..];
          assert Join(head, [SEP]) == [s[0]] + rest[0] + [SEP] + Join(rest[1..], [SEP]);
        }
        assert [s[0]] + s[1..] == s;
      }
    }
  }

  /** A join is never shorter than its first piece. */
  lemma JoinLength(parts: seq<string>, sep: string)
    requires |parts| >= 1
    ensures |Join(parts, sep)| >= |parts[0]|
  {
  }
}
