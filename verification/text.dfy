/** Strings as the configuration loader uses them: splitting, joining, lower-casing,
    and the small results type the other modules share. */
module Text {

  datatype Option<+T> = None | Some(value: T)
  {
    function GetOr(default: T): T
    {
      match this case Some(v) => v case None => default
    }
  }

  /** strings.Split for a one-character separator: always at least one part. */
  function Split(s: string, sep: char): (parts: seq<string>)
    ensures |parts| >= 1
  {
    if s == "" then [""]
    else if s[0] == sep then [""] + Split(s[1..], sep)
    else var rest := Split(s[1..], sep); [[s[0]] + rest[0]] + rest[1..]
  }

  /** strings.Join for a one-character separator. */
  function Join(parts: seq<string>, sep: char): string
  {
    if parts == [] then ""
    else if |parts| == 1 then parts[0]
    else parts[0] + [sep] + Join(parts[1..], sep)
  }

  predicate AllFree(parts: seq<string>, sep: char)
  {
    forall i :: 0 <= i < |parts| ==> sep !in parts[i]
  }

  lemma {:induction false} JoinOfSplit(s: string, sep: char)
    ensures AllFree(Split(s, sep), sep)
    ensures Join(Split(s, sep), sep) == s
    ensures |Split(s, sep)| == 1 <==> sep !in s
  {
    if s != "" {
      JoinOfSplit(s[1..], sep);
      var rest := Split(s[1..], sep);
      if s[0] == sep {
        assert Split(s, sep)[1..] == rest;
      } else {
        var parts := Split(s, sep);
        assert parts[0] == [s[0]] + rest[0] && parts[1..] == rest[1..];
        if |rest| > 1 {
          assert Join(parts, sep) == [s[0]] + Join(rest, sep);
        }
      }
    }
  }

  /** Splitting at the first separator peels off a separator-free head. */
  lemma {:induction false} SplitHead(a: string, b: string, sep: char)
    requires sep !in a
    ensures Split(a, sep) == [a]
    ensures Split(a + [sep] + b, sep) == [a] + Split(b, sep)
  {
    if a == "" {
      assert (a + [sep] + b)[1..] == b;
    } else {
      SplitHead(a[1..], b, sep);
      assert (a + [sep] + b)[1..] == a[1..] + [sep] + b;
      assert a == [a[0]] + a[1..];
    }
  }

  lemma {:induction false} SplitOfJoin(parts: seq<string>, sep: char)
    requires parts != [] && AllFree(parts, sep)
    ensures Split(Join(parts, sep), sep) == parts
  {
    if |parts| == 1 {
      SplitHead(parts[0], "", sep);
    } else {
      SplitOfJoin(parts[1..], sep);
      SplitHead(parts[0], Join(parts[1..], sep), sep);
    }
  }

  /** Join then split is the identity exactly on non-empty lists of separator-free parts. */
  lemma SplitOfJoinIff(parts: seq<string>, sep: char)
    ensures Split(Join(parts, sep), sep) == parts <==> parts != [] && AllFree(parts, sep)
  {
    if parts != [] && AllFree(parts, sep) {
      SplitOfJoin(parts, sep);
    } else {
      JoinOfSplit(Join(parts, sep), sep);
    }
  }

  /** SplitOffFirst: the text before the first separator and everything after it. */
  function SplitOffFirst(s: string, sep: char): (r: Option<(string, string)>)
    ensures r.Some? <==> sep in s
    ensures r.Some? ==> sep !in r.value.0 && r.value.0 + [sep] + r.value.1 == s
  {
    JoinOfSplit(s, sep);
    var split := Split(s, sep);
    if |split| < 2 then None else Some((split[0], Join(split[1..], sep)))
  }

  function LowerChar(c: char): char
  {
    if 'A' <= c <= 'Z' then ((c as int) + 32) as char else c
  }

  function ToLower(s: string): (r: string)
    ensures |r| == |s|
  {
    if s == "" then "" else [LowerChar(s[0])] + ToLower(s[1..])
  }

  lemma {:induction false} ToLowerAt(s: string, i: nat)
    requires i < |s|
    ensures ToLower(s)[i] == LowerChar(s[i])
  {
    if i > 0 { ToLowerAt(s[1..], i - 1); }
  }

  lemma {:induction false} ToLowerIdempotent(s: string)
    ensures ToLower(ToLower(s)) == ToLower(s)
  {
    if s != "" {
      ToLowerIdempotent(s[1..]);
      assert ToLower(s)[1..] == ToLower(s[1..]);
    }
  }

  function LowerAll(parts: seq<string>): (r: seq<string>)
    ensures |r| == |parts|
    ensures forall i :: 0 <= i < |r| ==> r[i] == ToLower(parts[i])
  {
    if parts == [] then [] else [ToLower(parts[0])] + LowerAll(parts[1..])
  }

  /** Lower-casing component by component is lower-casing the whole key. */
  lemma {:induction false} LowerAllOfSplit(s: string, sep: char)
    requires LowerChar(sep) == sep && !('a' <= sep <= 'z')
    ensures LowerAll(Split(s, sep)) == Split(ToLower(s), sep)
  {
    if s != "" {
      LowerAllOfSplit(s[1..], sep);
      assert ToLower(s)[1..] == ToLower(s[1..]);
      var rest := Split(s[1..], sep);
      if s[0] != sep {
        assert Split(s, sep)[0][0] == s[0] && Split(s, sep)[0][1..] == rest[0];
        assert LowerAll(Split(s, sep))[1..] == LowerAll(rest)[1..];
      }
    }
  }

  const SUB_SEPARATOR := '.'

  /** The lower-cased components that Get and Set walk along. */
  function PathOf(key: string): (p: seq<string>)
    ensures p != []
  {
    LowerAll(Split(key, SUB_SEPARATOR))
  }

  /** c is d, or they are the capital and the small form of one letter. */
  predicate SameLetter(c: char, d: char)
  {
    || c == d
    || ('A' <= c <= 'Z' && (d as int) == (c as int) + 32)
    || ('A' <= d <= 'Z' && (c as int) == (d as int) + 32)
  }

  predicate DifferInCase(a: string, b: string)
  {
    |a| == |b| && forall i :: 0 <= i < |a| ==> SameLetter(a[i], b[i])
  }

  /** What lower-casing does to each character. */
  lemma ToLowerSpelled(s: string)
    ensures |ToLower(s)| == |s|
    ensures forall i :: 0 <= i < |s| && 'A' <= s[i] <= 'Z' ==> (ToLower(s)[i] as int) == (s[i] as int) + ('a' as int) - ('A' as int)
    ensures forall i :: 0 <= i < |s| && !('A' <= s[i] <= 'Z') ==> ToLower(s)[i] == s[i]
  {
    forall i | 0 <= i < |s|
      ensures ToLower(s)[i] == LowerChar(s[i])
    {
      ToLowerAt(s, i);
    }
  }

  lemma ToLowerSame(a: string, b: string)
    ensures ToLower(a) == ToLower(b) <==> DifferInCase(a, b)
  {
    ToLowerSpelled(a);
    ToLowerSpelled(b);
    if DifferInCase(a, b) {
      forall i | 0 <= i < |a|
        ensures ToLower(a)[i] == ToLower(b)[i]
      {
        assert SameLetter(a[i], b[i]);
      }
    }
    if ToLower(a) == ToLower(b) {
      forall i | 0 <= i < |a|
        ensures SameLetter(a[i], b[i])
      {
        assert ToLower(a)[i] == ToLower(b)[i];
      }
    }
  }

  /** Keys that differ only in case name the same path, and no others do. */
  lemma CaseVariants(a: string, b: string)
    ensures PathOf(a) == PathOf(b) <==> DifferInCase(a, b)
  {
    ToLowerSame(a, b);
    LowerAllOfSplit(a, SUB_SEPARATOR);
    LowerAllOfSplit(b, SUB_SEPARATOR);
    JoinOfSplit(ToLower(a), SUB_SEPARATOR);
    JoinOfSplit(ToLower(b), SUB_SEPARATOR);
  }

  /** The components of a path contain no dot and no capital letter, and joined by dots they
      are the key with every capital replaced by its small letter. */
  lemma PathSpelled(key: string)
    ensures AllFree(PathOf(key), '.')
    ensures forall i, j :: 0 <= i < |PathOf(key)| && 0 <= j < |PathOf(key)[i]| ==> !('A' <= PathOf(key)[i][j] <= 'Z')
    ensures var k := Join(PathOf(key), '.');
      && |k| == |key|
      && (forall i :: 0 <= i < |key| && 'A' <= key[i] <= 'Z' ==> (k[i] as int) == (key[i] as int) + ('a' as int) - ('A' as int))
      && (forall i :: 0 <= i < |key| && !('A' <= key[i] <= 'Z') ==> k[i] == key[i])
  {
    LowerAllOfSplit(key, SUB_SEPARATOR);
    JoinOfSplit(ToLower(key), SUB_SEPARATOR);
    ToLowerSpelled(key);
    forall i | 0 <= i < |PathOf(key)|
      ensures forall j :: 0 <= j < |PathOf(key)[i]| ==> !('A' <= PathOf(key)[i][j] <= 'Z')
    {
      var part := Split(key, SUB_SEPARATOR)[i];
      assert PathOf(key)[i] == ToLower(part);
      ToLowerSpelled(part);
    }
  }
}
