/** The string operations both scripts apply to an input line: Python's
    `str.split(sep)`, `set(...)`, `str.startswith` and substring search,
    with strings as sequences of characters. */
module Tokens {

  /** Number of occurrences of the character `c` in `s`. */
  function Occurrences(s: string, c: char): (n: nat)
    ensures n <= |s|
    ensures n == 0 <==> c !in s
  {
    if s == [] then 0
    else (if s[0] == c then 1 else 0) + Occurrences(s[1..], c)
  }

  /** Python's `s.split(sep)` for a one-character separator: the maximal
      runs between separators, empty runs included, never an empty list. */
  function Split(s: string, sep: char): (pieces: seq<string>)
    ensures |pieces| == Occurrences(s, sep) + 1
    ensures forall k :: 0 <= k < |pieces| ==> sep !in pieces[k]
  {
    if s == [] then [""]
    else if s[0] == sep then [""] + Split(s[1..], sep)
    else
      var rest := Split(s[1..], sep);
      [[s[0]] + rest[0]] + rest[1..]
  }

  /** Python's `sep.join(pieces)`. */
  function Join(pieces: seq<string>, sep: char): string
  {
    if pieces == [] then ""
    else if |pieces| == 1 then pieces[0]
    else pieces[0] + [sep] + Join(pieces[1..], sep)
  }

  /** Joining the pieces with the separator gives back the line. */
  lemma {:induction false} JoinSplit(s: string, sep: char)
    ensures Join(Split(s, sep), sep) == s
  {
    if s != [] {
      JoinSplit(s[1..], sep);
      var rest := Split(s[1..], sep);
      if s[0] == sep {
        JoinCons("", rest, sep);
        assert "" + [sep] + s[1..] == s;
      } else {
        JoinPrepend(s[0], rest, sep);
        assert [s[0]] + s[1..] == s;
      }
    }
  }

  /** Joining a first piece onto at least one more. */
  lemma JoinCons(p: string, rest: seq<string>, sep: char)
    requires |rest| >= 1
    ensures Join([p] + rest, sep) == p + [sep] + Join(rest, sep)
  {
    assert ([p] + rest)[1..] == rest;
  }

  /** A character put in front of the first piece ends up in front of the
      join. */
  lemma JoinPrepend(c: char, pieces: seq<string>, sep: char)
    requires |pieces| >= 1
    ensures Join([[c] + pieces[0]] + pieces[1..], sep) == [c] + Join(pieces, sep)
  {
    if |pieces| > 1 {
      var tail := pieces[1..];
      JoinCons([c] + pieces[0], tail, sep);
      assert pieces == [pieces[0]] + tail;
      JoinCons(pieces[0], tail, sep);
      AppendAssoc([c], pieces[0], [sep]);
      AppendAssoc([c], pieces[0] + [sep], Join(tail, sep));
    }
  }

  /** A leading character other than the separator sticks to the first
      piece. */
  lemma SplitCons(c: char, u: string, sep: char)
    requires c != sep
    ensures Split([c] + u, sep) == [[c] + Split(u, sep)[0]] + Split(u, sep)[1..]
  {
    assert ([c] + u)[1..] == u;
  }

  /** A prefix free of separators sticks to the first piece and leaves the
      other pieces alone. */
  lemma {:induction false} SplitPrefix(a: string, t: string, sep: char)
    requires sep !in a
    ensures Split(a + t, sep) == [a + Split(t, sep)[0]] + Split(t, sep)[1..]
  {
    if a == [] {
      var r := Split(t, sep);
      assert a + t == t;
      assert a + r[0] == r[0];
      assert r == [r[0]] + r[1..];
    } else {
      SplitPrefix(a[1..], t, sep);
      SplitPrefixStep(a, t, sep);
    }
  }

  /** One step of `SplitPrefix`: from the tail of the prefix to the prefix. */
  lemma SplitPrefixStep(a: string, t: string, sep: char)
    requires a != [] && a[0] != sep
    requires Split(a[1..] + t, sep) == [a[1..] + Split(t, sep)[0]] + Split(t, sep)[1..]
    ensures Split(a + t, sep) == [a + Split(t, sep)[0]] + Split(t, sep)[1..]
  {
    var r := Split(t, sep);
    ConsTail(a, t);
    ConsTail(a, r[0]);
    SplitCons(a[0], a[1..] + t, sep);
  }

  /** Concatenation is associative. */
  lemma AppendAssoc<T>(a: seq<T>, b: seq<T>, c: seq<T>)
    ensures a + b + c == a + (b + c)
  {
  }

  /** A non-empty sequence is its head followed by its tail. */
  lemma ConsTail<T>(a: seq<T>, t: seq<T>)
    requires a != []
    ensures a + t == [a[0]] + (a[1..] + t)
  {
    assert a == [a[0]] + a[1..];
  }

  /** A line without a separator is a single piece. */
  lemma SplitWithoutSeparator(s: string, sep: char)
    requires sep !in s
    ensures Split(s, sep) == [s]
  {
    SplitPrefix(s, "", sep);
    assert s + "" == s;
  }

  /** Splitting a join of separator-free pieces gives back the pieces. */
  lemma {:induction false} SplitJoin(pieces: seq<string>, sep: char)
    requires |pieces| >= 1
    requires forall k :: 0 <= k < |pieces| ==> sep !in pieces[k]
    ensures Split(Join(pieces, sep), sep) == pieces
  {
    if |pieces| == 1 {
      SplitWithoutSeparator(pieces[0], sep);
    } else {
      var tail := Join(pieces[1..], sep);
      SplitJoin(pieces[1..], sep);
      assert pieces[0] + [sep] + tail == pieces[0] + ([sep] + tail);
      SplitPrefix(pieces[0], [sep] + tail, sep);
      assert ([sep] + tail)[1..] == tail;
      assert Split([sep] + tail, sep) == [""] + pieces[1..];
      assert pieces[0] + "" == pieces[0];
      assert pieces == [pieces[0]] + pieces[1..];
    }
  }

  /** Python's `set(xs)`: the distinct elements of a list. */
  function Elements(xs: seq<string>): (r: set<string>)
    ensures forall x :: x in r <==> x in xs
    ensures |r| <= |xs|
  {
    if xs == [] then {} else {xs[0]} + Elements(xs[1..])
  }

  /** The distinct comma-separated items of a line: at least one (the line
      itself when it has no comma, the empty item for an empty line) and at
      most one more than the number of commas. */
  function Items(data: string): (items: set<string>)
    ensures 1 <= |items| <= Occurrences(data, ',') + 1
  {
    var pieces := Split(data, ',');
    assert pieces[0] in Elements(pieces);
    Elements(pieces)
  }

  /** A line without a comma is its own single item. */
  lemma ItemsWithoutComma(data: string)
    requires ',' !in data
    ensures Items(data) == {data}
  {
    SplitWithoutSeparator(data, ',');
  }

  /** The items of a line depend only on which tokens it lists, not on their
      order or on how often each is repeated. */
  lemma ItemsOfJoin(tokens: seq<string>)
    requires |tokens| >= 1
    requires forall k :: 0 <= k < |tokens| ==> ',' !in tokens[k]
    ensures Items(Join(tokens, ',')) == Elements(tokens)
  {
    SplitJoin(tokens, ',');
  }

  /** Python's `s.startswith(prefix)`. */
  predicate StartsWith(s: string, prefix: string)
  {
    |prefix| <= |s| && s[..|prefix|] == prefix
  }

  /** `s` starts with `prefix` exactly when `s` is `prefix` followed by
      something. */
  lemma StartsWithConcat(s: string, prefix: string)
    ensures StartsWith(s, prefix) <==> exists rest :: s == prefix + rest
  {
    if StartsWith(s, prefix) {
      assert s == prefix + s[|prefix|..];
    }
    if exists rest :: s == prefix + rest {
      var rest :| s == prefix + rest;
      assert s[..|prefix|] == prefix;
    }
  }

  /** `t` occurs in `s` starting at offset `i`. */
  predicate OccursAt(s: string, t: string, i: int)
  {
    0 <= i && i + |t| <= |s| && s[i..i + |t|] == t
  }

  /** Python's `t in s` for strings. */
  predicate Contains(s: string, t: string)
  {
    exists i | 0 <= i <= |s| :: OccursAt(s, t, i)
  }

  /** Every piece of a split line occurs in the line. */
  lemma {:induction false} PieceOccurs(s: string, sep: char, k: nat)
    requires k < |Split(s, sep)|
    ensures Contains(s, Split(s, sep)[k])
  {
    var pieces := Split(s, sep);
    if k == 0 {
      JoinSplit(s, sep);
      PrefixOfJoin(pieces, sep);
      assert OccursAt(s, pieces[0], 0);
    } else {
      var rest := Split(s[1..], sep);
      var j := if s[0] == sep then k - 1 else k;
      assert pieces[k] == rest[j];
      PieceOccurs(s[1..], sep, j);
      var i :| 0 <= i <= |s[1..]| && OccursAt(s[1..], rest[j], i);
      OccursShift(s, rest[j], i);
    }
  }

  /** The first piece is a prefix of the join. */
  lemma PrefixOfJoin(pieces: seq<string>, sep: char)
    requires |pieces| >= 1
    ensures StartsWith(Join(pieces, sep), pieces[0])
  {
    if |pieces| > 1 {
      assert Join(pieces, sep) == pieces[0] + ([sep] + Join(pieces[1..], sep));
    }
  }

  /** A prefix of an item of a line occurs in the line itself. */
  lemma PrefixOfItemOccurs(data: string, item: string, prefix: string)
    requires item in Items(data)
    requires StartsWith(item, prefix)
    ensures Contains(data, prefix)
  {
    var pieces := Split(data, ',');
    assert item in pieces;
    var k :| 0 <= k < |pieces| && pieces[k] == item;
    PieceOccurs(data, ',', k);
    var i :| 0 <= i <= |data| && OccursAt(data, item, i);
    PrefixOccurs(data, item, prefix, i);
  }

  /** An occurrence in the tail of a string is an occurrence one further on
      in the string. */
  lemma OccursShift(s: string, t: string, i: int)
    requires |s| > 0 && OccursAt(s[1..], t, i)
    ensures OccursAt(s, t, i + 1)
  {
    assert s[i + 1..i + 1 + |t|] == s[1..][i..i + |t|];
  }

  /** Where a string occurs, so does each of its prefixes. */
  lemma PrefixOccurs(s: string, t: string, prefix: string, i: int)
    requires OccursAt(s, t, i) && StartsWith(t, prefix)
    ensures OccursAt(s, prefix, i)
  {
    assert s[i..i + |prefix|] == s[i..i + |t|][..|prefix|];
  }
}
