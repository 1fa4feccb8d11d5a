/**
 * The string operations the analyser relies on, with the semantics of the
 * host language's `str.startswith`, `str.endswith`, `str.split(sep)` and
 * string ordering (lexicographic by code point, a proper prefix first).
 */
module Strings {

  predicate StartsWith(s: string, prefix: string) {
    |prefix| <= |s| && s[..|prefix|] == prefix
  }

  predicate EndsWith(s: string, suffix: string) {
    |suffix| <= |s| && s[|s| - |suffix|..] == suffix
  }

  /** Two suffixes that end in different characters cannot both end the same string. */
  lemma SuffixesExclusive(s: string, a: string, b: string)
    requires a != [] && b != [] && a[|a| - 1] != b[|b| - 1]
    ensures !(EndsWith(s, a) && EndsWith(s, b))
  {
    SuffixLastChar(s, a);
    SuffixLastChar(s, b);
  }

  lemma SuffixLastChar(s: string, a: string)
    requires a != []
    ensures EndsWith(s, a) ==> s[|s| - 1] == a[|a| - 1]
  {
    if EndsWith(s, a) {
      assert s[|s| - |a|..][|a| - 1] == s[|s| - 1];
    }
  }

  /** `s.split(sep)`: the maximal `sep`-free pieces, empty pieces included. */
  function Split(s: string, sep: char): (r: seq<string>)
    ensures |r| >= 1
    ensures forall i :: 0 <= i < |r| ==> sep !in r[i]
    ensures sep !in s ==> r == [s]
    ensures sep in s ==> |r| >= 2
    decreases |s|
  {
    if s == [] then [[]]
    else
      assert s == [s[0]] + s[1..];
      var rest := Split(s[1..], sep);
      if s[0] == sep then [[]] + rest
      else [[s[0]] + rest[0]] + rest[1..]
  }

  /** `sep.join(segments)`. */
  function Join(segments: seq<string>, sep: char): string
    requires |segments| >= 1
    decreases |segments|
  {
    if |segments| == 1 then segments[0]
    else segments[0] + [sep] + Join(segments[1..], sep)
  }

  /** Splitting and joining again gives back the original string. */
  lemma {:induction false} JoinSplit(s: string, sep: char)
    ensures Join(Split(s, sep), sep) == s
    decreases |s|
  {
    if s != [] {
      JoinSplit(s[1..], sep);
      var rest := Split(s[1..], sep);
      if s[0] == sep {
        assert s == [sep] + s[1..];
      } else {
        if |rest| == 1 {
          assert Split(s, sep) == [[s[0]] + rest[0]];
        } else {
          assert Split(s, sep)[1..] == rest[1..];
          assert Join(rest, sep) == rest[0] + [sep] + Join(rest[1..], sep);
        }
        assert s == [s[0]] + s[1..];
      }
    }
  }

  /** Joining separator-free pieces and splitting again gives back the pieces. */
  lemma {:induction false} SplitJoin(segments: seq<string>, sep: char)
    requires |segments| >= 1
    requires forall i :: 0 <= i < |segments| ==> sep !in segments[i]
    ensures Split(Join(segments, sep), sep) == segments
    decreases |segments|, |segments[0]|
  {
    var head := segments[0];
    if head == [] {
      if |segments| > 1 {
        SplitJoin(segments[1..], sep);
        assert Join(segments, sep) == [sep] + Join(segments[1..], sep);
        assert Join(segments, sep)[1..] == Join(segments[1..], sep);
      }
    } else {
      var shorter := [head[1..]] + segments[1..];
      ShorterHead(segments, sep);
      SplitJoin(shorter, sep);
      JoinShorter(segments, sep);
      SplitCons(head[0], Join(shorter, sep), sep);
      assert [head[0]] + shorter[0] == head;
      assert segments == [head] + shorter[1..];
    }
  }

  /** Dropping the first character of the first segment keeps every segment free of the separator. */
  lemma ShorterHead(segments: seq<string>, sep: char)
    requires |segments| >= 1 && segments[0] != []
    requires forall i :: 0 <= i < |segments| ==> sep !in segments[i]
    ensures segments[0][0] != sep
    ensures forall i :: 0 <= i < |[segments[0][1..]] + segments[1..]| ==> sep !in ([segments[0][1..]] + segments[1..])[i]
  {
    var head := segments[0];
    var shorter := [head[1..]] + segments[1..];
    assert head[0] in head;
    forall i | 0 <= i < |shorter| ensures sep !in shorter[i] {
      if i == 0 { assert forall c :: c in head[1..] ==> c in head; }
      else { assert shorter[i] == segments[i]; }
    }
  }

  /** The joined string starts with the first character of the first segment, then joins the rest. */
  lemma JoinShorter(segments: seq<string>, sep: char)
    requires |segments| >= 1 && segments[0] != []
    ensures Join(segments, sep) == [segments[0][0]] + Join([segments[0][1..]] + segments[1..], sep)
  {
    var head := segments[0];
    var shorter := [head[1..]] + segments[1..];
    assert shorter[1..] == segments[1..];
    JoinHead(segments, sep);
    JoinHead(shorter, sep);
    assert head == [head[0]] + head[1..];
  }

  /** A character other than the separator joins the first segment. */
  lemma SplitCons(c: char, s: string, sep: char)
    requires c != sep
    ensures Split([c] + s, sep) == [[c] + Split(s, sep)[0]] + Split(s, sep)[1..]
  {
    assert ([c] + s)[1..] == s;
  }

  /** A join starts with its first piece, followed by the join of the rest. */
  lemma JoinHead(segments: seq<string>, sep: char)
    requires |segments| >= 1
    ensures |segments| == 1 ==> Join(segments, sep) == segments[0]
    ensures |segments| > 1 ==> Join(segments, sep) == segments[0] + [sep] + Join(segments[1..], sep)
  {
  }

  function Last(segments: seq<string>): string
    requires |segments| >= 1
  {
    segments[|segments| - 1]
  }

  /** `s.split(sep)[-1]`: the piece after the last separator, or `s` itself. */
  function LastSegment(s: string, sep: char): (r: string)
    ensures sep !in r
    ensures EndsWith(s, r)
    ensures sep !in s ==> r == s
    ensures sep in s ==> EndsWith(s, [sep] + r)
  {
    LastSegmentSuffix(s, sep);
    Last(Split(s, sep))
  }

  lemma {:induction false} LastSegmentSuffix(s: string, sep: char)
    ensures EndsWith(s, Last(Split(s, sep)))
    ensures sep in s ==> EndsWith(s, [sep] + Last(Split(s, sep)))
    decreases |s|
  {
    if s == [] {
      assert Split(s, sep) == [[]];
    } else {
      var t := s[1..];
      assert s == [s[0]] + t;
      LastSegmentSuffix(t, sep);
      var rest := Split(t, sep);
      var last := Last(rest);
      if s[0] == sep {
        assert Split(s, sep) == [[]] + rest;
        assert Last(Split(s, sep)) == last;
        EndsWithCons(s[0], t, last);
        if sep in t {
          EndsWithCons(s[0], t, [sep] + last);
        } else {
          assert [sep] + last == s;
          EndsWithSelf(s);
        }
      } else if sep in t {
        assert Split(s, sep) == [[s[0]] + rest[0]] + rest[1..];
        assert Last(Split(s, sep)) == last;
        EndsWithCons(s[0], t, last);
        EndsWithCons(s[0], t, [sep] + last);
      } else {
        assert rest == [t];
        assert Split(s, sep) == [s];
        EndsWithSelf(s);
      }
    }
  }

  lemma EndsWithCons(c: char, t: string, x: string)
    requires EndsWith(t, x)
    ensures EndsWith([c] + t, x)
  {
    assert ([c] + t)[|[c] + t| - |x|..] == t[|t| - |x|..];
  }

  lemma EndsWithSelf(s: string)
    ensures EndsWith(s, s)
  {
    assert s[|s| - |s|..] == s;
  }

  /** `s.split(sep)[:-1]`: every piece but the last. */
  function InitSegments(s: string, sep: char): (r: seq<string>)
    ensures forall i :: 0 <= i < |r| ==> sep !in r[i]
  {
    var pieces := Split(s, sep);
    pieces[..|pieces| - 1]
  }

  /** `s[:-2]`: everything but the final two characters (empty when shorter). */
  function DropLastTwo(s: string): (r: string)
    ensures |s| >= 2 ==> r + s[|s| - 2..] == s
    ensures |s| < 2 ==> r == []
  {
    if |s| >= 2 then s[..|s| - 2] else []
  }

  /** String order: lexicographic by character, a proper prefix before its extensions. */
  predicate StrLe(a: string, b: string)
    decreases |a|
  {
    a == [] || (b != [] && (a[0] < b[0] || (a[0] == b[0] && StrLe(a[1..], b[1..]))))
  }

  lemma {:induction false} StrLeReflexive(a: string)
    ensures StrLe(a, a)
    decreases |a|
  {
    if a != [] { StrLeReflexive(a[1..]); }
  }

  lemma {:induction false} StrLeTotal(a: string, b: string)
    ensures StrLe(a, b) || StrLe(b, a)
    decreases |a|
  {
    if a != [] && b != [] && a[0] == b[0] { StrLeTotal(a[1..], b[1..]); }
  }

  lemma {:induction false} StrLeAntisymmetric(a: string, b: string)
    requires StrLe(a, b) && StrLe(b, a)
    ensures a == b
    decreases |a|
  {
    if a != [] {
      StrLeAntisymmetric(a[1..], b[1..]);
      assert a == [a[0]] + a[1..];
      assert b == [b[0]] + b[1..];
    }
  }

  lemma {:induction false} StrLeTransitive(a: string, b: string, c: string)
    requires StrLe(a, b) && StrLe(b, c)
    ensures StrLe(a, c)
    decreases |a|
  {
    if a != [] && a[0] == b[0] && b[0] == c[0] {
      StrLeTransitive(a[1..], b[1..], c[1..]);
    }
  }
}
