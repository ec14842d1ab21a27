/**
 * Character classes and string primitives shared by the model: PCRE's `\w` and `\s`,
 * ASCII case folding (`strtoupper`, `stripos`), first case-insensitive occurrence,
 * maximal runs of a character class, and splitting text into lines.
 */
module Text {
  import opened Wrappers

  /** PCRE's `\w` without the `u` flag: ASCII letters, digits and the underscore. */
  predicate IsWordChar(c: char) {
    ('a' <= c <= 'z') || ('A' <= c <= 'Z') || ('0' <= c <= '9') || c == '_'
  }

  /** PCRE's `\s`: space, tab, line feed, vertical tab, form feed and carriage return. */
  predicate IsSpace(c: char) {
    c == ' ' || c == '\t' || c == '\n' || c == '\U{B}' || c == '\U{C}' || c == '\r'
  }

  predicate IsDigit(c: char) {
    '0' <= c <= '9'
  }

  /** The two value classes the patterns use: `\w` and `\S`. */
  datatype CharClass = Word | NonSpace

  predicate InClass(c: char, cls: CharClass) {
    match cls
    case Word => IsWordChar(c)
    case NonSpace => !IsSpace(c)
  }

  /** ASCII lower-casing, as `stripos` and the `i` flag compare. */
  function Lower(c: char): char {
    if 'A' <= c <= 'Z' then (c as int + 32) as char else c
  }

  /** ASCII upper-casing, as `strtoupper` does. */
  function Upper(c: char): char {
    if 'a' <= c <= 'z' then (c as int - 32) as char else c
  }

  function LowerStr(s: string): (r: string)
    ensures |r| == |s| && forall i :: 0 <= i < |s| ==> r[i] == Lower(s[i])
  {
    seq(|s|, i requires 0 <= i < |s| => Lower(s[i]))
  }

  function UpperStr(s: string): (r: string)
    ensures |r| == |s| && forall i :: 0 <= i < |s| ==> r[i] == Upper(s[i])
  {
    seq(|s|, i requires 0 <= i < |s| => Upper(s[i]))
  }

  /** Folding case does not move a character in or out of `\w` or `\S`. */
  lemma ClassIgnoresCase(c: char, d: char, cls: CharClass)
    requires Lower(c) == Lower(d)
    ensures InClass(c, cls) == InClass(d, cls)
  {
  }

  /** `p` occurs at offset `j` of `s`, ignoring ASCII case. */
  predicate AtCI(s: string, j: nat, p: string) {
    j + |p| <= |s| && forall i :: 0 <= i < |p| ==> Lower(s[j + i]) == Lower(p[i])
  }

  /** `p` occurs at offset `j` of `s`, exactly. */
  predicate At(s: string, j: nat, p: string) {
    j + |p| <= |s| && forall i :: 0 <= i < |p| ==> s[j + i] == p[i]
  }

  predicate StartsWithCI(s: string, p: string) {
    AtCI(s, 0, p)
  }

  predicate StartsWith(s: string, p: string) {
    At(s, 0, p)
  }

  /** The first offset at or after `from` where `p` occurs, ignoring case. */
  function FindCIFrom(s: string, p: string, from: nat): (r: Option<nat>)
    decreases |s| + 1 - from
    ensures r.Some? ==> from <= r.value && AtCI(s, r.value, p)
    ensures r.Some? ==> forall j :: from <= j < r.value ==> !AtCI(s, j, p)
    ensures r.None? ==> forall j :: from <= j ==> !AtCI(s, j, p)
  {
    if from + |p| > |s| then None
    else if AtCI(s, from, p) then Some(from)
    else FindCIFrom(s, p, from + 1)
  }

  /** `stripos($s, $p)`: the first case-insensitive occurrence, or `false` (None). */
  function FindCI(s: string, p: string): (r: Option<nat>)
    ensures r.Some? ==> AtCI(s, r.value, p) && forall j :: 0 <= j < r.value ==> !AtCI(s, j, p)
    ensures r.None? ==> forall j :: 0 <= j ==> !AtCI(s, j, p)
  {
    FindCIFrom(s, p, 0)
  }

  /** The first offset at or after `from` where `p` occurs exactly (`strpos`, or a literal
      regex without the `i` flag). */
  function FindFrom(s: string, p: string, from: nat): (r: Option<nat>)
    decreases |s| + 1 - from
    ensures r.Some? ==> from <= r.value && At(s, r.value, p)
    ensures r.Some? ==> forall j :: from <= j < r.value ==> !At(s, j, p)
    ensures r.None? ==> forall j :: from <= j ==> !At(s, j, p)
  {
    if from + |p| > |s| then None
    else if At(s, from, p) then Some(from)
    else FindFrom(s, p, from + 1)
  }

  /** The last offset before `k` where `p` occurs exactly. */
  function LastBefore(s: string, p: string, k: nat): (r: Option<nat>)
    ensures r.Some? ==> r.value < k && At(s, r.value, p)
    ensures r.Some? ==> forall j :: r.value < j < k ==> !At(s, j, p)
    ensures r.None? ==> forall j :: 0 <= j < k ==> !At(s, j, p)
  {
    if k == 0 then None
    else if At(s, k - 1, p) then Some(k - 1)
    else LastBefore(s, p, k - 1)
  }

  lemma LowerIdempotent(c: char)
    ensures Lower(Lower(c)) == Lower(c)
  {
  }

  /** Lower-casing the subject does not change whether a needle occurs at an offset. */
  lemma AtCIIgnoresCase(s: string, j: nat, p: string)
    ensures AtCI(LowerStr(s), j, p) == AtCI(s, j, p)
  {
    if j + |p| <= |s| {
      forall i | 0 <= i < |p|
        ensures Lower(LowerStr(s)[j + i]) == Lower(p[i]) <==> Lower(s[j + i]) == Lower(p[i])
      {
        LowerIdempotent(s[j + i]);
      }
    }
  }

  /** Lower-casing the subject does not change where `stripos` finds a needle. */
  lemma {:induction false} FindCIFromIgnoresCase(s: string, p: string, from: nat)
    ensures FindCIFrom(LowerStr(s), p, from) == FindCIFrom(s, p, from)
    decreases |s| + 1 - from
  {
    var t := LowerStr(s);
    AtCIIgnoresCase(s, from, p);
    if from + |p| > |s| {
      assert FindCIFrom(t, p, from) == None;
    } else if AtCI(s, from, p) {
      assert FindCIFrom(t, p, from) == Some(from);
    } else {
      assert FindCIFrom(t, p, from) == FindCIFrom(t, p, from + 1);
      FindCIFromIgnoresCase(s, p, from + 1);
    }
  }

  /** Length of the longest prefix of `s` whose characters are all in `cls` (a greedy `\w*` or `\S*`). */
  function Run(s: string, cls: CharClass): (n: nat)
    ensures n <= |s|
    ensures forall i :: 0 <= i < n ==> InClass(s[i], cls)
    ensures n < |s| ==> !InClass(s[n], cls)
  {
    if |s| == 0 || !InClass(s[0], cls) then 0 else 1 + Run(s[1..], cls)
  }

  /** The first and last of three joined texts are read back by slicing. */
  lemma SliceThree(a: string, b: string, c: string)
    ensures (a + b + c)[..|a|] == a && (a + b + c)[|a| + |b|..] == c
  {
  }

  /** A greedy run stops at the first character outside the class, even if more text follows. */
  lemma {:induction false} RunOfConcat(a: string, b: string, cls: CharClass)
    requires forall i :: 0 <= i < |a| ==> InClass(a[i], cls)
    requires |b| > 0 ==> !InClass(b[0], cls)
    ensures Run(a + b, cls) == |a|
  {
    if |a| == 0 {
      assert a + b == b;
    } else {
      var t := a[1..];
      assert forall i :: 0 <= i < |t| ==> t[i] == a[i + 1];
      assert (a + b)[0] == a[0];
      assert (a + b)[1..] == t + b;
      RunOfConcat(t, b, cls);
    }
  }

  /** A run is exactly as long as the prefix of class characters that is followed by the end of
      the text or by a character outside the class. */
  lemma RunExactly(v: string, n: nat, cls: CharClass)
    requires n <= |v| && forall k :: 0 <= k < n ==> InClass(v[k], cls)
    requires n < |v| ==> !InClass(v[n], cls)
    ensures Run(v, cls) == n
  {
    assert v == v[..n] + v[n..];
    RunOfConcat(v[..n], v[n..], cls);
  }

  /** The characters after the last `sep` (all of `q` when there is none). */
  function AfterLast(q: string, sep: char): (r: string)
    ensures sep !in r && |r| <= |q| && r == q[|q| - |r|..]
    ensures |r| < |q| ==> q[|q| - |r| - 1] == sep
  {
    if |q| == 0 || q[|q| - 1] == sep then ""
    else
      var r := AfterLast(q[..|q| - 1], sep) + [q[|q| - 1]];
      assert q[..|q| - 1][|q| - |r|..] + [q[|q| - 1]] == q[|q| - |r|..];
      r
  }

  /** The text split at every line feed, as `^`/`$` in multiline mode see it. */
  function Lines(s: string): (ls: seq<string>)
    ensures |ls| >= 1
    ensures forall k :: 0 <= k < |ls| ==> '\n' !in ls[k]
  {
    if |s| == 0 then [""]
    else
      var rest := Lines(s[1..]);
      if s[0] == '\n' then [""] + rest
      else [[s[0]] + rest[0]] + rest[1..]
  }

  /** Lines joined back with line feeds. */
  function Join(ls: seq<string>): string
    requires |ls| >= 1
  {
    if |ls| == 1 then ls[0] else ls[0] + "\n" + Join(ls[1..])
  }

  /** Splitting into lines loses nothing: joining the lines gives the text back. */
  lemma {:induction false} JoinLines(s: string)
    ensures Join(Lines(s)) == s
  {
    if |s| > 0 {
      var rest := Lines(s[1..]);
      JoinLines(s[1..]);
      if s[0] == '\n' {
        assert Lines(s) == [""] + rest;
        assert ([""] + rest)[1..] == rest;
      } else {
        var ls := Lines(s);
        assert ls == [[s[0]] + rest[0]] + rest[1..];
        if |rest| == 1 {
          assert Join(ls) == [s[0]] + rest[0];
        } else {
          assert ls[1..] == rest[1..];
          assert Join(rest) == rest[0] + "\n" + Join(rest[1..]);
        }
      }
      assert s == [s[0]] + s[1..];
    }
  }
}
