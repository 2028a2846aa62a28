/** The pieces of Python 2 string behaviour the macros depend on:
    `unicode(args)` on the macro argument, `str.split(sep)` with an explicit
    separator, and its inverse `sep.join(parts)`. Text is a `seq<char>`. */
module PyStr {
  import opened Wrappers

  /** `unicode(args)`: the argument text of a macro call. Trac passes `None`
      when the macro is written without parentheses, and Python prints it as
      the four letters "None". */
  function Unicode(args: Option<string>): string {
    match args
    case Some(text) => text
    case None => "None"
  }

  /** Number of occurrences of `c` in `s` (Python's `s.count(c)`). */
  function Count(s: string, c: char): nat {
    if |s| == 0 then 0
    else (if s[0] == c then 1 else 0) + Count(s[1..], c)
  }

  /** Python's `s.split(sep)` with an explicit one-character separator: the
      maximal separator-free runs between separators, empty ones included.
      Unlike the argument-less `split()`, it never returns an empty list and
      never trims a field. */
  function Split(s: string, sep: char): (parts: seq<string>)
    ensures |parts| >= 1
    ensures forall i | 0 <= i < |parts| :: sep !in parts[i]
    decreases |s|
  {
    if |s| == 0 then [""]
    else
      var rest := Split(s[1..], sep);
      if s[0] == sep then [""] + rest
      else [[s[0]] + rest[0]] + rest[1..]
  }

  /** Python's `sep.join(parts)`. */
  function Join(parts: seq<string>, sep: char): string {
    if |parts| == 0 then ""
    else if |parts| == 1 then parts[0]
    else parts[0] + [sep] + Join(parts[1..], sep)
  }

  /** Cut `s` at the first `sep`: what comes before it, and everything after
      it (`""` when `s` has no separator). Used to read back a `key=value`
      field, a `property:value` declaration and a `base?query` URL. */
  function Partition(s: string, sep: char): (string, string) {
    var parts := Split(s, sep);
    (parts[0], Join(parts[1..], sep))
  }

  /** Joining the fields of a split gives the text back. */
  lemma {:induction false} JoinSplit(s: string, sep: char)
    ensures Join(Split(s, sep), sep) == s
    decreases |s|
  {
    if |s| > 0 {
      var rest := Split(s[1..], sep);
      JoinSplit(s[1..], sep);
      if s[0] == sep {
        JoinEmptyFirst(rest, sep);
      } else {
        JoinExtendFirst(s[0], rest, sep);
      }
      assert s == [s[0]] + s[1..];
    }
  }

  /** An empty first field contributes only its separator. */
  lemma JoinEmptyFirst(rest: seq<string>, sep: char)
    requires |rest| >= 1
    ensures Join([""] + rest, sep) == [sep] + Join(rest, sep)
  {
    assert ([""] + rest)[1..] == rest;
  }

  /** A character put in front of the first field comes first in the join. */
  lemma JoinExtendFirst(c: char, rest: seq<string>, sep: char)
    requires |rest| >= 1
    ensures Join([[c] + rest[0]] + rest[1..], sep) == [c] + Join(rest, sep)
  {
    var parts := [[c] + rest[0]] + rest[1..];
    if |rest| == 1 {
      assert parts == [[c] + rest[0]];
    } else {
      assert parts[1..] == rest[1..];
    }
  }

  /** Text without the separator splits into itself alone. */
  lemma {:induction false} SplitNoSep(a: string, sep: char)
    requires sep !in a
    ensures Split(a, sep) == [a]
    decreases |a|
  {
    if |a| > 0 {
      SplitNoSep(a[1..], sep);
      assert a == [a[0]] + a[1..];
    }
  }

  /** A separator-free field followed by a separator is the first field, and
      the remainder splits independently of it. */
  lemma {:induction false} SplitConcat(a: string, sep: char, b: string)
    requires sep !in a
    ensures Split(a + [sep] + b, sep) == [a] + Split(b, sep)
    decreases |a|
  {
    var s := a + [sep] + b;
    if |a| == 0 {
      assert s == [sep] + b;
      assert s[1..] == b;
    } else {
      assert s[1..] == a[1..] + [sep] + b;
      SplitConcat(a[1..], sep, b);
      var rest := Split(s[1..], sep);
      assert rest == [a[1..]] + Split(b, sep);
      assert [s[0]] + rest[0] == a;
      assert rest[1..] == Split(b, sep);
    }
  }

  /** Splitting undoes joining, provided no field holds the separator and
      there is at least one field (`"".split(sep)` is `[""]`, not `[]`). */
  lemma {:induction false} SplitJoin(parts: seq<string>, sep: char)
    requires |parts| >= 1
    requires forall i | 0 <= i < |parts| :: sep !in parts[i]
    ensures Split(Join(parts, sep), sep) == parts
    decreases |parts|
  {
    if |parts| == 1 {
      SplitNoSep(parts[0], sep);
    } else {
      SplitJoin(parts[1..], sep);
      SplitConcat(parts[0], sep, Join(parts[1..], sep));
      assert parts == [parts[0]] + parts[1..];
    }
  }

  /** `s.split(sep)` has one field more than `s` has separators. */
  lemma {:induction false} SplitLength(s: string, sep: char)
    ensures |Split(s, sep)| == Count(s, sep) + 1
    decreases |s|
  {
    if |s| > 0 {
      SplitLength(s[1..], sep);
    }
  }

  /** There is a second field exactly when the text holds a separator. */
  lemma SplitSingleIff(s: string, sep: char)
    ensures |Split(s, sep)| == 1 <==> sep !in s
  {
    SplitLength(s, sep);
    CountZeroIff(s, sep);
  }

  lemma {:induction false} CountZeroIff(s: string, c: char)
    ensures Count(s, c) == 0 <==> c !in s
    decreases |s|
  {
    if |s| > 0 {
      CountZeroIff(s[1..], c);
      assert s == [s[0]] + s[1..];
    }
  }

  /** A tail that, appended to a field, cannot extend that field. */
  predicate FieldEnd(tail: string, sep: char) {
    tail == [] || tail[0] == sep
  }

  /** The first field of `a + tail` is `a` whenever `a` has no separator and
      `tail` is empty or starts with one: fields are taken verbatim. */
  lemma FirstField(a: string, sep: char, tail: string)
    requires sep !in a
    requires FieldEnd(tail, sep)
    ensures Split(a + tail, sep)[0] == a
    ensures |Split(a + tail, sep)| == 1 <==> tail == []
  {
    if tail == [] {
      assert a + tail == a;
      SplitNoSep(a, sep);
    } else {
      assert a + tail == a + [sep] + tail[1..];
      SplitConcat(a, sep, tail[1..]);
    }
  }

  /** Partitioning a `key + sep + rest` text with a separator-free key gives
      the key and the rest back, whatever the rest holds. */
  lemma PartitionConcat(a: string, sep: char, b: string)
    requires sep !in a
    ensures Partition(a + [sep] + b, sep) == (a, b)
  {
    SplitConcat(a, sep, b);
    var parts := Split(a + [sep] + b, sep);
    assert parts[1..] == Split(b, sep);
    JoinSplit(b, sep);
  }

  /** A character absent from the text is absent from every field. */
  lemma {:induction false} SplitFieldsWithin(s: string, sep: char, c: char)
    requires c !in s
    ensures forall i | 0 <= i < |Split(s, sep)| :: c !in Split(s, sep)[i]
    decreases |s|
  {
    if |s| > 0 {
      SplitFieldsWithin(s[1..], sep, c);
    }
  }

  /** Joining one more field appends a separator and that field. */
  lemma {:induction false} JoinSnoc(parts: seq<string>, sep: char, last: string)
    requires |parts| >= 1
    ensures Join(parts + [last], sep) == Join(parts, sep) + [sep] + last
    decreases |parts|
  {
    if |parts| > 1 {
      JoinSnoc(parts[1..], sep, last);
      assert (parts + [last])[1..] == parts[1..] + [last];
    }
  }
}
