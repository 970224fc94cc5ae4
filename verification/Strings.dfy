/** Values that may be absent, and the Python string operations the services use. */
module Strings {

  datatype Option<+T> = None | Some(value: T)

  /** `s.split(sep)`: always at least one part. */
  function Split(s: string, sep: char): (parts: seq<string>)
    ensures |parts| >= 1
  {
    if s == [] then [""]
    else
      var rest := Split(s[1..], sep);
      if s[0] == sep then [""] + rest else [[s[0]] + rest[0]] + rest[1..]
  }

  /** `sep.join(parts)`. */
  function Join(parts: seq<string>, sep: char): string {
    if parts == [] then ""
    else if |parts| == 1 then parts[0]
    else parts[0] + [sep] + Join(parts[1..], sep)
  }

  /** `s.split(sep, 1)` when `sep` occurs in `s`. */
  function SplitFirst(s: string, sep: char): (r: Option<(string, string)>)
    ensures r.None? <==> sep !in s
  {
    if s == [] then None
    else if s[0] == sep then Some(("", s[1..]))
    else match SplitFirst(s[1..], sep)
         case None => None
         case Some((left, right)) => Some(([s[0]] + left, right))
  }

  /** `s.rsplit(sep, 1)` when `sep` occurs in `s`; unpacking the result raises otherwise. */
  function SplitLast(s: string, sep: char): (r: Option<(string, string)>)
    ensures r.None? <==> sep !in s
  {
    if s == [] then None
    else if s[|s| - 1] == sep then Some((s[..|s| - 1], ""))
    else match SplitLast(s[..|s| - 1], sep)
         case None => None
         case Some((left, right)) => Some((left, right + [s[|s| - 1]]))
  }

  predicate Free(parts: seq<string>, sep: char) {
    forall i | 0 <= i < |parts| :: sep !in parts[i]
  }

  lemma {:induction false} SplitFirstParts(left: string, sep: char, right: string)
    requires sep !in left
    ensures SplitFirst(left + [sep] + right, sep) == Some((left, right))
  {
    if left == [] {
      assert left + [sep] + right == [sep] + right;
    } else {
      SplitFirstParts(left[1..], sep, right);
      assert (left + [sep] + right)[1..] == left[1..] + [sep] + right;
      assert [left[0]] + left[1..] == left;
    }
  }

  lemma {:induction false} SplitLastParts(left: string, sep: char, right: string)
    requires sep !in right
    ensures SplitLast(left + [sep] + right, sep) == Some((left, right))
  {
    var s := left + [sep] + right;
    if right == [] {
      assert s[..|s| - 1] == left;
    } else {
      SplitLastParts(left, sep, right[..|right| - 1]);
      assert s[..|s| - 1] == left + [sep] + right[..|right| - 1];
      assert right[..|right| - 1] + [s[|s| - 1]] == right;
    }
  }

  lemma {:induction false} SplitLastRejoins(s: string, sep: char)
    requires sep in s
    ensures var (left, right) := SplitLast(s, sep).value;
            sep !in right && left + [sep] + right == s
  {
    if s[|s| - 1] != sep {
      assert s == s[..|s| - 1] + [s[|s| - 1]];
      SplitLastRejoins(s[..|s| - 1], sep);
    }
  }

  lemma {:induction false} SplitFirstRejoins(s: string, sep: char)
    requires sep in s
    ensures var (left, right) := SplitFirst(s, sep).value;
            sep !in left && left + [sep] + right == s
  {
    if s[0] != sep {
      SplitFirstRejoins(s[1..], sep);
    }
  }

  lemma {:induction false} JoinSplit(s: string, sep: char)
    ensures Join(Split(s, sep), sep) == s && Free(Split(s, sep), sep)
  {
    if s != [] {
      JoinSplit(s[1..], sep);
      var rest := Split(s[1..], sep);
      assert Split(s, sep)[1..] == (if s[0] == sep then rest else rest[1..]);
    }
  }

  lemma {:induction false} SplitNoSep(s: string, sep: char)
    requires sep !in s
    ensures Split(s, sep) == [s]
  {
    if s != [] {
      SplitNoSep(s[1..], sep);
      assert [s[0]] + s[1..] == s;
    }
  }

  lemma {:induction false} SplitCons(head: string, sep: char, tail: string)
    requires sep !in head
    ensures Split(head + [sep] + tail, sep) == [head] + Split(tail, sep)
  {
    var s := head + [sep] + tail;
    if head == [] {
      assert s[1..] == tail;
    } else {
      assert s[1..] == head[1..] + [sep] + tail;
      assert [head[0]] + head[1..] == head;
      SplitCons(head[1..], sep, tail);
    }
  }

  lemma {:induction false} SplitJoin(parts: seq<string>, sep: char)
    requires parts != [] && Free(parts, sep)
    ensures Split(Join(parts, sep), sep) == parts
  {
    if |parts| == 1 {
      SplitNoSep(parts[0], sep);
    } else {
      SplitJoin(parts[1..], sep);
      SplitCons(parts[0], sep, Join(parts[1..], sep));
    }
  }

  lemma {:induction false} JoinFree(parts: seq<string>, sep: char, c: char)
    requires Free(parts, c) && c != sep
    ensures c !in Join(parts, sep)
  {
    if |parts| > 1 {
      JoinFree(parts[1..], sep, c);
    }
  }

  lemma {:induction false} JoinConcat(a: seq<string>, b: seq<string>, sep: char)
    requires a != [] && b != []
    ensures Join(a + b, sep) == Join(a, sep) + [sep] + Join(b, sep)
  {
    if |a| == 1 {
      assert (a + b)[1..] == b;
    } else {
      JoinConcat(a[1..], b, sep);
      assert (a + b)[1..] == a[1..] + b;
    }
  }
}
