/**
 * `to_camel` of the puzzle pipeline (generate-puzzles/chesscoven/pipeline.py):
 * a snake_case field name becomes a camelCase column name. The name is split
 * on "_" as Python's `str.split` does (empty pieces kept), the first piece is
 * kept as it is, every later piece is capitalised (first character upper case,
 * the rest lower case) and the pieces are joined with nothing between them.
 */
module Camel {

  /** `sep.join(parts)`. */
  function Join(parts: seq<string>, sep: char): string {
    if |parts| == 0 then []
    else if |parts| == 1 then parts[0]
    else parts[0] + [sep] + Join(parts[1..], sep)
  }

  /** `"".join(parts)`. */
  function Concat(parts: seq<string>): string {
    if parts == [] then [] else parts[0] + Concat(parts[1..])
  }

  /** `s.split(sep)`: the maximal pieces of `s` between separators, with the
      empty ones kept. Joining them with `sep` gives `s` back. */
  function Split(s: string, sep: char): (parts: seq<string>)
    ensures |parts| >= 1
    ensures forall i :: 0 <= i < |parts| ==> sep !in parts[i]
    ensures Join(parts, sep) == s
  {
    if s == [] then [[]]
    else
      var rest := Split(s[1..], sep);
      if s[0] == sep then
        assert Join([[]] + rest, sep) == [sep] + Join(rest, sep) by {
          assert ([[]] + rest)[1..] == rest;
        }
        [[]] + rest
      else
        var parts := [[s[0]] + rest[0]] + rest[1..];
        assert Join(parts, sep) == s by {
          if |rest| > 1 {
            assert parts[1..] == rest[1..];
          }
        }
        parts
  }

  /** Without a separator there is one piece, the whole string. */
  lemma {:induction false} SplitWithoutSeparator(s: string, sep: char)
    requires sep !in s
    ensures Split(s, sep) == [s]
  {
    if s != [] {
      SplitWithoutSeparator(s[1..], sep);
    }
  }

  /** ASCII upper and lower case (`str.upper` / `str.lower` on one character). */
  function Upper(c: char): char {
    if 'a' <= c <= 'z' then (c as int - 32) as char else c
  }

  function Lower(c: char): char {
    if 'A' <= c <= 'Z' then (c as int + 32) as char else c
  }

  function LowerAll(s: string): (r: string)
    ensures |r| == |s|
    ensures forall i :: 0 <= i < |s| ==> r[i] == Lower(s[i])
  {
    if s == [] then [] else [Lower(s[0])] + LowerAll(s[1..])
  }

  /** `str.capitalize`: the first character in upper case, the rest in lower case. */
  function Capitalize(w: string): (r: string)
    ensures |r| == |w|
    ensures |w| > 0 ==> r[0] == Upper(w[0])
    ensures forall i :: 1 <= i < |w| ==> r[i] == Lower(w[i])
  {
    if w == [] then [] else [Upper(w[0])] + LowerAll(w[1..])
  }

  function CapitalizeAll(ws: seq<string>): (r: seq<string>)
    ensures |r| == |ws| && forall i :: 0 <= i < |ws| ==> r[i] == Capitalize(ws[i])
  {
    seq(|ws|, i requires 0 <= i < |ws| => Capitalize(ws[i]))
  }

  /** Concatenating pieces that hold no "_" gives a string without "_". */
  lemma {:induction false} ConcatWithout(parts: seq<string>, c: char)
    requires forall i :: 0 <= i < |parts| ==> c !in parts[i]
    ensures c !in Concat(parts)
  {
    if parts != [] {
      ConcatWithout(parts[1..], c);
    }
  }

  /** Changing case never makes an underscore. */
  lemma CapitalizeKeepsUnderscoresOut(w: string)
    requires '_' !in w
    ensures '_' !in Capitalize(w)
  {
    var r := Capitalize(w);
    forall i | 0 <= i < |r|
      ensures r[i] != '_'
    {
      assert w[i] != '_';
    }
  }

  /** `to_camel`. Its result holds no "_" and begins with the name's first piece. */
  function ToCamel(name: string): (r: string)
    ensures '_' !in r
    ensures Split(name, '_')[0] <= r
  {
    var components := Split(name, '_');
    var rest := CapitalizeAll(components[1..]);
    forall i | 0 <= i < |rest|
      ensures '_' !in rest[i]
    {
      CapitalizeKeepsUnderscoresOut(components[1..][i]);
    }
    ConcatWithout(rest, '_');
    components[0] + Concat(rest)
  }

  /** A name without "_" is its own camelCase form. */
  lemma ToCamelIdentity(name: string)
    requires '_' !in name
    ensures ToCamel(name) == name
  {
    SplitWithoutSeparator(name, '_');
    assert Split(name, '_')[1..] == [];
  }

  /** So `to_camel` is idempotent. */
  lemma ToCamelIdempotent(name: string)
    ensures ToCamel(ToCamel(name)) == ToCamel(name)
  {
    ToCamelIdentity(ToCamel(name));
  }

  /** Splitting at the first separator. */
  lemma {:induction false} SplitAtFirst(a: string, b: string, sep: char)
    requires sep !in a
    ensures Split(a + [sep] + b, sep) == [a] + Split(b, sep)
  {
    if a == [] {
      assert (a + [sep] + b)[1..] == b;
    } else {
      assert (a + [sep] + b)[1..] == a[1..] + [sep] + b;
      SplitAtFirst(a[1..], b, sep);
      var rest := [a[1..]] + Split(b, sep);
      assert rest[0] == a[1..] && rest[1..] == Split(b, sep);
      assert [a[0]] + a[1..] == a;
    }
  }

  /** Splitting undoes joining pieces that hold no separator. */
  lemma {:induction false} SplitJoin(parts: seq<string>, sep: char)
    requires |parts| >= 1 && forall i :: 0 <= i < |parts| ==> sep !in parts[i]
    ensures Split(Join(parts, sep), sep) == parts
  {
    if |parts| == 1 {
      SplitWithoutSeparator(parts[0], sep);
    } else {
      SplitJoin(parts[1..], sep);
      SplitAtFirst(parts[0], Join(parts[1..], sep), sep);
      assert [parts[0]] + parts[1..] == parts;
    }
  }

  /** `to_camel` of pieces joined by "_": the first piece unchanged, then every
      later piece capitalised, with nothing between them. */
  lemma ToCamelOfPieces(parts: seq<string>)
    requires |parts| >= 1 && forall i :: 0 <= i < |parts| ==> '_' !in parts[i]
    ensures ToCamel(Join(parts, '_')) == parts[0] + Concat(CapitalizeAll(parts[1..]))
  {
    SplitJoin(parts, '_');
  }
}
