/**
 * The string operations the line codec is built from: trimming a fixed set of
 * characters from both ends (String.Trim(params char[])), removing every
 * occurrence of a character (String.Replace(" ", "")), and splitting on or
 * joining with a single separator character (String.Split(char),
 * String.Join(string, string[])).
 */
module Text {

  /** The characters the codec strips from both ends of a line: ' ', '\r', '\n', '\t'. */
  predicate IsTrimChar(c: char) {
    c == ' ' || c == '\r' || c == '\n' || c == '\t'
  }

  /** Neither end of `s` is a trimmed character (the empty string qualifies). */
  predicate CleanEnds(s: string) {
    s == [] || (!IsTrimChar(s[0]) && !IsTrimChar(s[|s| - 1]))
  }

  /** Drops the leading run of trimmed characters: what is left is a suffix of `s`. */
  function TrimStart(s: string): (r: string)
    ensures |r| <= |s| && r == s[|s| - |r|..]
    ensures forall k :: 0 <= k < |s| - |r| ==> IsTrimChar(s[k])
    ensures r == [] || !IsTrimChar(r[0])
  {
    if |s| > 0 && IsTrimChar(s[0]) then TrimStart(s[1..]) else s
  }

  /** Drops the trailing run of trimmed characters: what is left is a prefix of `s`. */
  function TrimEnd(s: string): (r: string)
    ensures |r| <= |s| && r == s[..|r|]
    ensures forall k :: |r| <= k < |s| ==> IsTrimChar(s[k])
    ensures r == [] || !IsTrimChar(r[|r| - 1])
  {
    if |s| > 0 && IsTrimChar(s[|s| - 1]) then TrimEnd(s[..|s| - 1]) else s
  }

  /**
   * Trims both ends. The result never starts or ends with a trimmed
   * character, and a string whose ends are already clean is left alone.
   */
  function Trim(s: string): (r: string)
    ensures |r| <= |s|
    ensures CleanEnds(r)
    ensures CleanEnds(s) ==> r == s
  {
    var t := TrimStart(s);
    assert t != [] ==> t[|t| - 1] == s[|s| - 1];
    TrimEnd(t)
  }

  /**
   * Trim keeps a contiguous middle of the line: it is s[i..i + |Trim(s)|]
   * for some i, and every character before or after that range is a
   * trimmed character.
   */
  lemma TrimIsMiddle(s: string) returns (i: nat)
    ensures i + |Trim(s)| <= |s| && Trim(s) == s[i..i + |Trim(s)|]
    ensures forall k :: 0 <= k < i ==> IsTrimChar(s[k])
    ensures forall k :: i + |Trim(s)| <= k < |s| ==> IsTrimChar(s[k])
  {
    var t := TrimStart(s);
    var r := TrimEnd(t);
    i := |s| - |t|;
    PrefixOfSuffix(s, t, r, i);
  }

  /** A prefix `r` of the suffix `t == s[i..]` is the slice s[i..i + |r|]. */
  lemma PrefixOfSuffix(s: string, t: string, r: string, i: nat)
    requires i <= |s| && t == s[i..] && |r| <= |t| && r == t[..|r|]
    ensures r == s[i..i + |r|]
    ensures forall k :: i + |r| <= k < |s| ==> s[k] == t[k - i]
  {
  }

  /** Number of occurrences of `c` in `s`. */
  function Count(s: string, c: char): nat {
    if s == [] then 0 else (if s[0] == c then 1 else 0) + Count(s[1..], c)
  }

  /**
   * Removes every occurrence of `c`, keeping the other characters in order.
   */
  function RemoveChar(s: string, c: char): (r: string)
    ensures c !in r
  {
    if s == [] then [] else (if s[0] == c then [] else [s[0]]) + RemoveChar(s[1..], c)
  }

  /** RemoveChar shortens the string by exactly the number of occurrences of `c`. */
  lemma {:induction false} RemoveCharLength(s: string, c: char)
    ensures |RemoveChar(s, c)| == |s| - Count(s, c)
  {
    if s != [] {
      RemoveCharLength(s[1..], c);
    }
  }

  /** A string without `c` comes back from RemoveChar unchanged. */
  lemma {:induction false} RemoveCharAbsent(s: string, c: char)
    requires c !in s
    ensures RemoveChar(s, c) == s
  {
    if s != [] {
      RemoveCharAbsent(s[1..], c);
      assert s == [s[0]] + s[1..];
    }
  }

  /** RemoveChar drops exactly the occurrences of `c` and keeps every other character as often as it occurs. */
  lemma {:induction false} RemoveCharKeeps(s: string, c: char)
    ensures multiset(RemoveChar(s, c)) == multiset(s)[c := 0]
  {
    if s != [] {
      RemoveCharKeeps(s[1..], c);
      RemoveCharCons(s[0], s[1..], c);
      assert s == [s[0]] + s[1..];
      assert multiset(s) == multiset([s[0]]) + multiset(s[1..]);
    }
  }

  /**
   * RemoveChar works character by character: removing from a concatenation
   * is removing from each part, so the characters that stay keep their order.
   */
  lemma {:induction false} RemoveCharConcat(a: string, b: string, c: char)
    ensures RemoveChar(a + b, c) == RemoveChar(a, c) + RemoveChar(b, c)
  {
    if a == [] {
      assert a + b == b;
    } else {
      RemoveCharConcat(a[1..], b, c);
      RemoveCharConsConcat(a[0], a[1..], b, c);
      assert a == [a[0]] + a[1..];
    }
  }

  /** The inductive step of RemoveCharConcat, for a first part `[x] + t`. */
  lemma RemoveCharConsConcat(x: char, t: string, b: string, c: char)
    requires RemoveChar(t + b, c) == RemoveChar(t, c) + RemoveChar(b, c)
    ensures RemoveChar([x] + t + b, c) == RemoveChar([x] + t, c) + RemoveChar(b, c)
  {
    assert [x] + t + b == [x] + (t + b);
    RemoveCharCons(x, t + b, c);
    RemoveCharCons(x, t, c);
    AppendAssoc(if x == c then [] else [x], RemoveChar(t, c), RemoveChar(b, c));
  }

  /** Removing from a line that starts with `x`: `x` goes unless it is `c`, then the rest. */
  lemma RemoveCharCons(x: char, s: string, c: char)
    ensures RemoveChar([x] + s, c) == (if x == c then [] else [x]) + RemoveChar(s, c)
  {
    assert ([x] + s)[1..] == s;
  }

  lemma AppendAssoc(x: string, y: string, z: string)
    ensures x + (y + z) == (x + y) + z
  {
  }

  /**
   * The fields joined with `sep` between consecutive ones: the line starts
   * with the first field, and a separator follows it when there is a second.
   */
  function Join(fields: seq<string>, sep: char): (line: string)
    ensures |fields| > 0 ==> |fields[0]| <= |line| && line[..|fields[0]|] == fields[0]
    ensures |fields| > 1 ==> |fields[0]| < |line| && line[|fields[0]|] == sep
  {
    if |fields| == 0 then []
    else if |fields| == 1 then fields[0]
    else fields[0] + [sep] + Join(fields[1..], sep)
  }

  /**
   * Splits at every `sep`, keeping empty fields: one more field than there
   * are separators, and no field holds a separator.
   */
  function Split(s: string, sep: char): (r: seq<string>)
    ensures |r| == Count(s, sep) + 1
    ensures forall k :: 0 <= k < |r| ==> sep !in r[k]
  {
    if s == [] then [[]]
    else
      var rest := Split(s[1..], sep);
      if s[0] == sep then [[]] + rest else [[s[0]] + rest[0]] + rest[1..]
  }

  /** Joining the fields of a split back with the same separator gives the input. */
  lemma {:induction false} JoinSplit(s: string, sep: char)
    ensures Join(Split(s, sep), sep) == s
  {
    if s != [] {
      var rest := Split(s[1..], sep);
      JoinSplit(s[1..], sep);
      if s[0] == sep {
        assert s == [sep] + s[1..];
      } else {
        assert s == [s[0]] + s[1..];
        assert |rest| > 1 ==> Join(rest, sep) == rest[0] + [sep] + Join(rest[1..], sep);
      }
    }
  }

  /** Splitting a string that starts with a separator-free field `f`. */
  lemma {:induction false} SplitAfterField(f: string, rest: string, sep: char)
    requires sep !in f
    ensures Split(f + rest, sep) == [f + Split(rest, sep)[0]] + Split(rest, sep)[1..]
  {
    var parts := Split(rest, sep);
    if f == [] {
      assert f + rest == rest && f + parts[0] == parts[0];
      assert parts == [parts[0]] + parts[1..];
    } else {
      var t := f[1..];
      SplitAfterField(t, rest, sep);
      assert f + rest == [f[0]] + (t + rest);
      SplitCons(f[0], t + rest, sep);
      assert [f[0]] + (t + parts[0]) == f + parts[0];
    }
  }

  /** Splitting a string that starts with a character other than the separator. */
  lemma SplitCons(x: char, s: string, sep: char)
    requires x != sep
    ensures Split([x] + s, sep) == [[x] + Split(s, sep)[0]] + Split(s, sep)[1..]
  {
    assert ([x] + s)[1..] == s;
  }

  /** Split undoes Join when no field contains the separator. */
  lemma {:induction false} SplitJoin(fields: seq<string>, sep: char)
    requires |fields| >= 1
    requires forall k :: 0 <= k < |fields| ==> sep !in fields[k]
    ensures Split(Join(fields, sep), sep) == fields
  {
    var f := fields[0];
    if |fields| == 1 {
      SplitAfterField(f, [], sep);
      assert f + [] == f;
    } else {
      var tail := Join(fields[1..], sep);
      SplitJoin(fields[1..], sep);
      assert Join(fields, sep) == f + ([sep] + tail);
      SplitSep(tail, sep);
      SplitAfterField(f, [sep] + tail, sep);
      assert f + [] == f;
      assert fields == [f] + fields[1..];
    }
  }

  /** Splitting a string that starts with the separator: an empty first field. */
  lemma SplitSep(s: string, sep: char)
    ensures Split([sep] + s, sep) == [[]] + Split(s, sep)
  {
    assert ([sep] + s)[1..] == s;
  }

  /** The joined line holds the separators between fields plus those inside fields. */
  lemma {:induction false} JoinCount(fields: seq<string>, sep: char)
    requires |fields| >= 1
    ensures Count(Join(fields, sep), sep) == |fields| - 1 + SumCounts(fields, sep)
  {
    if |fields| > 1 {
      JoinCount(fields[1..], sep);
      CountConcat(fields[0], [sep] + Join(fields[1..], sep), sep);
      CountConcat([sep], Join(fields[1..], sep), sep);
      assert fields[0] + [sep] + Join(fields[1..], sep) == fields[0] + ([sep] + Join(fields[1..], sep));
    }
  }

  /** Total number of `sep` characters inside the fields. */
  function SumCounts(fields: seq<string>, sep: char): nat {
    if fields == [] then 0 else Count(fields[0], sep) + SumCounts(fields[1..], sep)
  }

  lemma {:induction false} CountConcat(a: string, b: string, c: char)
    ensures Count(a + b, c) == Count(a, c) + Count(b, c)
  {
    if a != [] {
      CountConcat(a[1..], b, c);
      assert (a + b)[1..] == a[1..] + b;
    } else {
      assert a + b == b;
    }
  }
}
