/**
 * Class-name derivation for a migration
 * (FileDateMigrator::resolveMigrationClass): split the name at '_', drop
 * the four timestamp tokens, join the rest with '_' and StudlyCase it.
 */
module Naming {

  const Separator: char := '_'

  /** The number of leading tokens (year, month, day, time) that are dropped. */
  const TimestampTokens: nat := 4

  /** `explode('_', s)`: the pieces between separators; the empty string gives one empty piece. */
  function Split(s: string): (parts: seq<string>)
    ensures |parts| >= 1
    ensures forall k :: 0 <= k < |parts| ==> Separator !in parts[k]
    decreases |s|
  {
    if s == [] then [""]
    else
      var rest := Split(s[1..]);
      if s[0] == Separator then [""] + rest
      else [[s[0]] + rest[0]] + rest[1..]
  }

  /** `implode('_', parts)`. */
  function Join(parts: seq<string>): string
    decreases |parts|
  {
    if parts == [] then ""
    else if |parts| == 1 then parts[0]
    else parts[0] + [Separator] + Join(parts[1..])
  }

  /** `array_slice($parts, n)`: all but the first `n` pieces, nothing when there are fewer. */
  function Drop(parts: seq<string>, n: nat): (r: seq<string>)
    ensures |parts| <= n ==> r == []
    ensures n < |parts| ==> |r| == |parts| - n && forall k :: 0 <= k < |r| ==> r[k] == parts[n + k]
  {
    if |parts| <= n then [] else parts[n..]
  }

  /** A lower-case ASCII letter made upper-case; every other character unchanged. */
  function Upper(c: char): (u: char)
    ensures 'a' <= c <= 'z' ==> 'A' <= u <= 'Z' && u as int - 'A' as int == c as int - 'a' as int
    ensures !('a' <= c <= 'z') ==> u == c
  {
    if 'a' <= c <= 'z' then (c as int - 32) as char else c
  }

  /** The word with its first character upper-cased. */
  function Capitalize(w: string): (r: string)
    ensures |r| == |w|
    ensures w != [] ==> r[0] == Upper(w[0])
    ensures forall k :: 0 < k < |w| ==> r[k] == w[k]
  {
    if w == [] then [] else [Upper(w[0])] + w[1..]
  }

  /** The words capitalized and concatenated. */
  function CapitalizeAll(words: seq<string>): string
    decreases |words|
  {
    if words == [] then "" else Capitalize(words[0]) + CapitalizeAll(words[1..])
  }

  /** StudlyCase: each '_'-separated word capitalized, the separators removed. */
  function Studly(s: string): string
  {
    CapitalizeAll(Split(s))
  }

  /** The class a migration file must define. */
  function ClassName(migration: string): string
  {
    Studly(Join(Drop(Split(migration), TimestampTokens)))
  }

  /** Joining the pieces of a split gives the string back. */
  lemma {:induction false} JoinSplit(s: string)
    ensures Join(Split(s)) == s
    decreases |s|
  {
    if s != [] {
      JoinSplit(s[1..]);
      var rest := Split(s[1..]);
      if s[0] == Separator {
        assert Split(s) == [""] + rest;
        assert ([""] + rest)[1..] == rest;
      } else {
        var parts := Split(s);
        assert parts[0] == [s[0]] + rest[0];
        if |rest| == 1 {
          assert Join(parts) == [s[0]] + rest[0];
        } else {
          assert parts[1..] == rest[1..];
          assert Join(parts) == [s[0]] + (rest[0] + [Separator] + Join(rest[1..]));
        }
      }
    }
  }

  /** A word without separators in front of `t` extends the first piece of `t`. */
  lemma {:induction false} SplitWord(w: string, t: string)
    requires Separator !in w
    ensures Split(w + t) == [w + Split(t)[0]] + Split(t)[1..]
    decreases |w|
  {
    if w != [] {
      var u := w + t;
      assert u[1..] == w[1..] + t;
      assert u[0] == w[0] && u[0] != Separator;
      SplitWord(w[1..], t);
      var r := Split(u[1..]);
      assert r[0] == w[1..] + Split(t)[0];
      assert r[1..] == Split(t)[1..];
      assert Split(u) == [[u[0]] + r[0]] + r[1..];
      assert [w[0]] + (w[1..] + Split(t)[0]) == w + Split(t)[0];
    } else {
      assert w + t == t;
      assert w + Split(t)[0] == Split(t)[0];
      assert Split(t) == [Split(t)[0]] + Split(t)[1..];
    }
  }

  /** Splitting a join of separator-free pieces gives the pieces back. */
  lemma {:induction false} SplitJoin(parts: seq<string>)
    requires |parts| >= 1
    requires forall k :: 0 <= k < |parts| ==> Separator !in parts[k]
    ensures Split(Join(parts)) == parts
    decreases |parts|
  {
    if |parts| == 1 {
      SplitWord(parts[0], "");
      assert parts[0] + "" == parts[0];
    } else {
      var t := Join(parts[1..]);
      SplitJoin(parts[1..]);
      assert Split([Separator] + t) == [""] + Split(t);
      SplitWord(parts[0], [Separator] + t);
      assert parts[0] + [Separator] + t == parts[0] + ([Separator] + t);
      assert parts[0] + "" == parts[0];
      assert parts == [parts[0]] + parts[1..];
    }
  }

  /**
   * The class name is the capitalized concatenation of the name's pieces
   * after the first four: the join and the second split cancel out.
   */
  lemma ClassNameWords(migration: string)
    ensures ClassName(migration) == CapitalizeAll(Drop(Split(migration), TimestampTokens))
  {
    var rest := Drop(Split(migration), TimestampTokens);
    if rest == [] {
      assert Split("") == [""];
      assert CapitalizeAll([""]) == "";
    } else {
      SplitJoin(rest);
    }
  }

  /** Capitalizing words one at a time, front to back. */
  lemma CapitalizeAllCons(w: string, rest: seq<string>)
    ensures CapitalizeAll([w] + rest) == Capitalize(w) + CapitalizeAll(rest)
  {
    assert ([w] + rest)[1..] == rest;
  }

  /** Each descriptive word of the documented example, capitalized. */
  lemma CapitalizeExampleWords()
    ensures Capitalize("create") == "Create"
    ensures Capitalize("posts") == "Posts"
    ensures Capitalize("table") == "Table"
  {
    assert Upper('c') == 'C' && Upper('p') == 'P' && Upper('t') == 'T';
  }

  /** The descriptive words of the documented example, StudlyCased. */
  lemma ExampleCapitalize()
    ensures CapitalizeAll(["create", "posts", "table"]) == "CreatePostsTable"
  {
    CapitalizeExampleWords();
    assert CapitalizeAll([]) == "";
    CapitalizeAllCons("table", []);
    CapitalizeAllCons("posts", ["table"]);
    CapitalizeAllCons("create", ["posts", "table"]);
  }

  /** The pieces of the documented example name, 2018_01_01_120000_create_posts_table. */
  const ExampleParts: seq<string> := ["2018", "01", "01", "120000", "create", "posts", "table"]

  /** The documented example name gives the expected class. */
  lemma ClassNameExample()
    ensures ClassName(Join(ExampleParts)) == "CreatePostsTable"
  {
    SplitJoin(ExampleParts);
    ClassNameWords(Join(ExampleParts));
    assert Drop(ExampleParts, TimestampTokens) == ["create", "posts", "table"];
    ExampleCapitalize();
  }

  /** The pieces of a name whose timestamp is a single token, 20180101120000_create_posts_table. */
  const CompactParts: seq<string> := ["20180101120000", "create", "posts", "table"]

  /**
   * A name whose timestamp is a single token has only four pieces, so
   * nothing is left after the drop and the class name is empty.
   */
  lemma ClassNameOfCompactTimestamp()
    ensures ClassName(Join(CompactParts)) == ""
  {
    SplitJoin(CompactParts);
    ClassNameWords(Join(CompactParts));
  }
}
