/**
 * The `KEY=value` patterns the environment code hands to `preg_match` and `preg_replace`:
 * a literal key (matched exactly or ignoring case) followed by a greedy value run of `\w`
 * or `\S` characters that may or may not be empty. `FirstValue` is the capture of the first
 * match; `Rewrite` replaces every match from left to right, as `preg_replace` does.
 */
module Pattern {
  import opened Wrappers
  import opened Text
  import Template

  /** The value part of a pattern: `\w*`, `\w+`, `\S*` or `\S+`. */
  datatype Shape = Shape(cls: CharClass, nonEmpty: bool)

  const WordStar := Shape(Word, false)
  const WordPlus := Shape(Word, true)
  const NonSpaceStar := Shape(NonSpace, false)
  const NonSpacePlus := Shape(NonSpace, true)

  /** `/KEY(value)/`, with the `i` flag when `caseless`. */
  datatype KeyPattern = KeyPattern(key: string, caseless: bool, shape: Shape)

  /** The pattern matches at the start of `s`. */
  predicate MatchesAt(s: string, p: KeyPattern) {
    (if p.caseless then StartsWithCI(s, p.key) else StartsWith(s, p.key))
    && (!p.shape.nonEmpty || Run(s[|p.key|..], p.shape.cls) > 0)
  }

  /** The captured value of a match at the start of `s`. */
  function ValueOf(s: string, p: KeyPattern): string
    requires MatchesAt(s, p)
  {
    s[|p.key|..][..Run(s[|p.key|..], p.shape.cls)]
  }

  /** `preg_match`: the value captured by the leftmost match, if any. */
  function FirstValue(s: string, p: KeyPattern): (r: Option<string>)
    decreases |s|
    ensures r.Some? ==> forall i :: 0 <= i < |r.value| ==> InClass(r.value[i], p.shape.cls)
    ensures r.Some? && p.shape.nonEmpty ==> |r.value| > 0
  {
    if MatchesAt(s, p) then Some(ValueOf(s, p))
    else if |s| == 0 then None
    else FirstValue(s[1..], p)
  }

  /** `FirstValue` finds the leftmost match, and finds nothing exactly when no offset matches. */
  lemma {:induction false} FirstValueIsLeftmost(s: string, p: KeyPattern)
    ensures FirstValue(s, p).None? <==> forall i :: 0 <= i <= |s| ==> !MatchesAt(s[i..], p)
    ensures FirstValue(s, p).Some? ==>
      exists i :: 0 <= i <= |s| && MatchesAt(s[i..], p) && FirstValue(s, p).value == ValueOf(s[i..], p)
                  && forall j :: 0 <= j < i ==> !MatchesAt(s[j..], p)
    decreases |s|
  {
    assert s[0..] == s;
    if !MatchesAt(s, p) && |s| > 0 {
      FirstValueIsLeftmost(s[1..], p);
      forall i | 0 <= i <= |s[1..]| ensures s[1..][i..] == s[i + 1..] {
      }
      if FirstValue(s, p).Some? {
        var i :| 0 <= i <= |s[1..]| && MatchesAt(s[1..][i..], p) && FirstValue(s, p).value == ValueOf(s[1..][i..], p)
                 && forall j :: 0 <= j < i ==> !MatchesAt(s[1..][j..], p);
        assert MatchesAt(s[i + 1..], p) && FirstValue(s, p).value == ValueOf(s[i + 1..], p);
        forall j | 0 <= j < i + 1 ensures !MatchesAt(s[j..], p) {
          if j > 0 {
            assert s[j..] == s[1..][j - 1..];
          }
        }
      } else {
        forall i | 0 <= i <= |s| ensures !MatchesAt(s[i..], p) {
          if i > 0 {
            assert s[i..] == s[1..][i - 1..];
          }
        }
      }
    }
  }

  /** What one match is replaced with: the matched key text followed by a new value (`$1value`),
      the key as the caller spelt it followed by a new value (`KEY=value`), or a PHP replacement
      template over the groups (matched text, key text, value text). */
  datatype Replacement = KeepKey(text: string) | SpellKey(text: string) | Template(template: string)

  function Emit(rep: Replacement, key: string, keyText: string, value: string): string {
    match rep
    case KeepKey(t) => keyText + t
    case SpellKey(t) => key + t
    case Template(t) => Template.Expand(t, [keyText + value, keyText, value])
  }

  /** `preg_replace('/(KEY)(value)/i', ...)`: every match, leftmost first and without overlap,
      is replaced; every other character is copied, so a text without a match is left exactly
      as it was. */
  function Rewrite(s: string, key: string, shape: Shape, rep: Replacement): (r: string)
    requires |key| > 0
    ensures FirstValue(s, KeyPattern(key, true, shape)).None? ==> r == s
    decreases |s|
  {
    if |s| == 0 then ""
    else if MatchesAt(s, KeyPattern(key, true, shape)) then
      var n := |key| + Run(s[|key|..], shape.cls);
      Emit(rep, key, s[..|key|], s[|key|..n]) + Rewrite(s[n..], key, shape, rep)
    else
      assert s == [s[0]] + s[1..];
      [s[0]] + Rewrite(s[1..], key, shape, rep)
  }

  /** A literal replacement: a new value put in the place of the old one. */
  predicate IsLiteral(rep: Replacement) {
    !rep.Template?
  }

  /** The key text a literal replacement writes for a match whose key text is `keyText`. */
  function KeyOut(rep: Replacement, key: string, keyText: string): string
    requires IsLiteral(rep)
  {
    if rep.KeepKey? then keyText else key
  }

  /** Rewriting keeps the first characters of the text up to case: a match puts a key that is
      equal up to case where a key was, and text shorter than the key is never touched. */
  lemma {:induction false} RewritePrefix(s: string, key: string, shape: Shape, rep: Replacement, k: nat)
    requires |key| > 0 && IsLiteral(rep) && k <= |key|
    ensures |s| < |key| ==> Rewrite(s, key, shape, rep) == s
    ensures |s| >= k ==> |Rewrite(s, key, shape, rep)| >= k
    ensures |s| >= k ==> forall i :: 0 <= i < k ==> Lower(Rewrite(s, key, shape, rep)[i]) == Lower(s[i])
    decreases |s|
  {
    var out := Rewrite(s, key, shape, rep);
    if |s| == 0 {
    } else if MatchesAt(s, KeyPattern(key, true, shape)) {
      var n := |key| + Run(s[|key|..], shape.cls);
      var e := KeyOut(rep, key, s[..|key|]);
      assert out == e + rep.text + Rewrite(s[n..], key, shape, rep) by {
        RewriteAtMatchSplit(s, key, shape, rep, n);
      }
      assert |e| == |key| && forall i :: 0 <= i < |key| ==> Lower(e[i]) == Lower(s[i]) by {
        assert AtCI(s, 0, key);
      }
      forall i | 0 <= i < k ensures Lower(out[i]) == Lower(s[i]) {
        assert out[i] == e[i];
      }
    } else {
      var tail := Rewrite(s[1..], key, shape, rep);
      assert out == [s[0]] + tail by {
        RewriteSkip(s, key, shape, rep);
      }
      RewritePrefix(s[1..], key, shape, rep, if k > 0 then k - 1 else 0);
      if |s| < |key| {
        assert s == [s[0]] + s[1..];
      }
      if |s| >= k && k > 0 {
        forall i | 0 <= i < k ensures Lower(out[i]) == Lower(s[i]) {
          if i > 0 {
            assert out[i] == tail[i - 1];
          }
        }
      }
    }
  }

  /** A text that agrees up to case with a non-matching text on the key and the character after
      it does not match either, for any reader of the same key that is at most as wide and needs
      a value whenever the rewriter does. */
  lemma NoMatchTransfers(s: string, out: string, key: string, shape: Shape, get: KeyPattern)
    requires |key| > 0 && |s| > |key| && |out| > |key|
    requires forall i :: 0 <= i <= |key| ==> Lower(out[i]) == Lower(s[i])
    requires get.key == key && Narrower(get.shape.cls, shape.cls) && (shape.nonEmpty ==> get.shape.nonEmpty)
    requires !MatchesAt(s, KeyPattern(key, true, shape))
    ensures !MatchesAt(out, get)
  {
    if StartsWithCI(s, key) {
      assert Run(s[|key|..], shape.cls) == 0;
      assert s[|key|..][0] == s[|key|];
      assert !InClass(s[|key|], shape.cls);
      ClassIgnoresCase(out[|key|], s[|key|], shape.cls);
      assert !InClass(out[|key|], get.shape.cls);
      assert out[|key|..][0] == out[|key|];
      assert Run(out[|key|..], get.shape.cls) == 0;
    } else {
      var i :| 0 <= i < |key| && Lower(s[i]) != Lower(key[i]);
      assert Lower(out[i]) != Lower(key[i]);
      assert !StartsWithCI(out, key);
    }
  }

  /** Where rewriting does not match at the start of `s`, the result does not start with a
      match of any pattern for the same key whose value class is at most as wide and which
      needs a value whenever the rewritten one does. */
  lemma NoMatchAfterRewrite(s: string, key: string, shape: Shape, rep: Replacement, get: KeyPattern)
    requires |key| > 0 && IsLiteral(rep) && |s| > 0
    requires get.key == key && Narrower(get.shape.cls, shape.cls) && (shape.nonEmpty ==> get.shape.nonEmpty)
    requires !MatchesAt(s, KeyPattern(key, true, shape))
    ensures Rewrite(s, key, shape, rep) == [s[0]] + Rewrite(s[1..], key, shape, rep)
    ensures !MatchesAt(Rewrite(s, key, shape, rep), get)
  {
    var out := Rewrite(s, key, shape, rep);
    var tail := Rewrite(s[1..], key, shape, rep);
    assert out == [s[0]] + tail;
    if |s| <= |key| {
      RewritePrefix(s[1..], key, shape, rep, 0);
      assert s == [s[0]] + s[1..];
      assert out == s;
      if StartsWithCI(s, key) {
        assert |s| == |key| && shape.nonEmpty;
        assert s[|key|..] == "";
      }
    } else {
      RewritePrefix(s[1..], key, shape, rep, |key|);
      forall i | 0 <= i <= |key| ensures Lower(out[i]) == Lower(s[i]) {
        if i > 0 {
          assert out[i] == tail[i - 1];
        }
      }
      NoMatchTransfers(s, out, key, shape, get);
    }
  }

  /** `\w` is narrower than `\S`: every word character is a non-space. */
  predicate Narrower(a: CharClass, b: CharClass) {
    a == b || (a == Word && b == NonSpace)
  }

  /** A replacement whose new value fits the value pattern (and is not empty where the pattern
      needs a value), so that a second rewrite finds it again. */
  predicate Fits(rep: Replacement, shape: Shape) {
    IsLiteral(rep)
    && (forall i :: 0 <= i < |rep.text| ==> InClass(rep.text[i], shape.cls))
    && (shape.nonEmpty ==> |rep.text| > 0)
  }

  /** One step of `Rewrite` at a match ending at `n`. */
  lemma RewriteStep(s: string, key: string, shape: Shape, rep: Replacement, n: nat)
    requires |key| > 0 && MatchesAt(s, KeyPattern(key, true, shape)) && n == |key| + Run(s[|key|..], shape.cls)
    ensures Rewrite(s, key, shape, rep) == Emit(rep, key, s[..|key|], s[|key|..n]) + Rewrite(s[n..], key, shape, rep)
  {
  }

  /** One step of `Rewrite` where no match starts. */
  lemma RewriteSkip(s: string, key: string, shape: Shape, rep: Replacement)
    requires |key| > 0 && |s| > 0 && !MatchesAt(s, KeyPattern(key, true, shape))
    ensures Rewrite(s, key, shape, rep) == [s[0]] + Rewrite(s[1..], key, shape, rep)
  {
  }

  /** The rewrite of a text that starts with a match ending at `n`: the new key and value, then
      the rest. */
  lemma RewriteAtMatchSplit(s: string, key: string, shape: Shape, rep: Replacement, n: nat)
    requires |key| > 0 && IsLiteral(rep) && MatchesAt(s, KeyPattern(key, true, shape))
    requires n == |key| + Run(s[|key|..], shape.cls)
    ensures Rewrite(s, key, shape, rep) == KeyOut(rep, key, s[..|key|]) + rep.text + Rewrite(s[n..], key, shape, rep)
  {
    RewriteStep(s, key, shape, rep, n);
    assert Emit(rep, key, s[..|key|], s[|key|..n]) == KeyOut(rep, key, s[..|key|]) + rep.text;
  }

  /** After a match ending at `n`, the rewritten rest starts with a character outside the value
      class. */
  lemma RestStartsOutside(s: string, key: string, shape: Shape, rep: Replacement, n: nat)
    requires |key| > 0 && IsLiteral(rep) && |s| >= |key|
    requires n == |key| + Run(s[|key|..], shape.cls)
    ensures var tail := Rewrite(s[n..], key, shape, rep);
            |tail| > 0 ==> !InClass(tail[0], shape.cls)
  {
    var v := s[|key|..];
    var rest := s[n..];
    assert rest == v[n - |key|..];
    var tail := Rewrite(rest, key, shape, rep);
    if |rest| == 0 {
      assert tail == "";
    } else {
      RewritePrefix(rest, key, shape, rep, 1);
      assert !InClass(rest[0], shape.cls);
      ClassIgnoresCase(tail[0], rest[0], shape.cls);
    }
  }

  /** The first part of a rewrite at a match ending at `n`: the new key and value, then the
      rewritten rest, which starts with a character outside the value class. */
  lemma RewriteAtMatch(s: string, key: string, shape: Shape, rep: Replacement, n: nat)
    requires |key| > 0 && IsLiteral(rep) && MatchesAt(s, KeyPattern(key, true, shape))
    requires n == |key| + Run(s[|key|..], shape.cls)
    ensures var tail := Rewrite(s[n..], key, shape, rep);
            && Rewrite(s, key, shape, rep) == KeyOut(rep, key, s[..|key|]) + rep.text + tail
            && StartsWithCI(KeyOut(rep, key, s[..|key|]), key)
            && |KeyOut(rep, key, s[..|key|])| == |key|
            && (|tail| > 0 ==> !InClass(tail[0], shape.cls))
  {
    RewriteAtMatchSplit(s, key, shape, rep, n);
    RestStartsOutside(s, key, shape, rep, n);
  }

  /** Rewriting twice gives the same text as rewriting once. */
  lemma {:induction false} RewriteIdempotent(s: string, key: string, shape: Shape, rep: Replacement)
    requires |key| > 0 && Fits(rep, shape)
    ensures Rewrite(Rewrite(s, key, shape, rep), key, shape, rep) == Rewrite(s, key, shape, rep)
    decreases |s|
  {
    if |s| == 0 {
    } else if MatchesAt(s, KeyPattern(key, true, shape)) {
      var n := |key| + Run(s[|key|..], shape.cls);
      RewriteIdempotent(s[n..], key, shape, rep);
      IdempotentAtMatch(s, key, shape, rep, n);
    } else {
      RewriteIdempotent(s[1..], key, shape, rep);
      IdempotentAtSkip(s, key, shape, rep);
    }
  }

  /** The step of `RewriteIdempotent` at a match ending at `n`. */
  lemma IdempotentAtMatch(s: string, key: string, shape: Shape, rep: Replacement, n: nat)
    requires |key| > 0 && Fits(rep, shape) && MatchesAt(s, KeyPattern(key, true, shape))
    requires n == |key| + Run(s[|key|..], shape.cls)
    requires Rewrite(Rewrite(s[n..], key, shape, rep), key, shape, rep) == Rewrite(s[n..], key, shape, rep)
    ensures Rewrite(Rewrite(s, key, shape, rep), key, shape, rep) == Rewrite(s, key, shape, rep)
  {
    var kp := KeyPattern(key, true, shape);
    var out := Rewrite(s, key, shape, rep);
    var tail := Rewrite(s[n..], key, shape, rep);
    var k := KeyOut(rep, key, s[..|key|]);
    assert out == k + rep.text + tail && StartsWithCI(k, key) && |k| == |key|
           && (|tail| > 0 ==> !InClass(tail[0], shape.cls)) by {
      RewriteAtMatch(s, key, shape, rep, n);
    }
    var n2 := |key| + |rep.text|;
    assert MatchesAt(out, kp) && n2 == |key| + Run(out[|key|..], shape.cls) by {
      MatchOfWritten(k, rep.text, tail, key, shape);
    }
    assert out[..|key|] == k && out[n2..] == tail by {
      SliceThree(k, rep.text, tail);
    }
    assert Rewrite(out, key, shape, rep) == KeyOut(rep, key, k) + rep.text + tail by {
      RewriteAtMatchSplit(out, key, shape, rep, n2);
    }
  }

  /** A key equal to `key` up to case, a value that fits the value class and a rest that does not
      continue it: the pattern matches there, and the match ends after the value. */
  lemma MatchOfWritten(k: string, text: string, tail: string, key: string, shape: Shape)
    requires StartsWithCI(k, key) && |k| == |key|
    requires forall i :: 0 <= i < |text| ==> InClass(text[i], shape.cls)
    requires shape.nonEmpty ==> |text| > 0
    requires |tail| > 0 ==> !InClass(tail[0], shape.cls)
    ensures MatchesAt(k + text + tail, KeyPattern(key, true, shape))
    ensures Run((k + text + tail)[|key|..], shape.cls) == |text|
  {
    var out := k + text + tail;
    assert out[|key|..] == text + tail;
    RunOfConcat(text, tail, shape.cls);
    forall i | 0 <= i < |key| ensures Lower(out[i]) == Lower(key[i]) {
      assert out[i] == k[i];
    }
  }

  /** The step of `RewriteIdempotent` where no match starts. */
  lemma IdempotentAtSkip(s: string, key: string, shape: Shape, rep: Replacement)
    requires |key| > 0 && Fits(rep, shape) && |s| > 0 && !MatchesAt(s, KeyPattern(key, true, shape))
    requires Rewrite(Rewrite(s[1..], key, shape, rep), key, shape, rep) == Rewrite(s[1..], key, shape, rep)
    ensures Rewrite(Rewrite(s, key, shape, rep), key, shape, rep) == Rewrite(s, key, shape, rep)
  {
    var out := Rewrite(s, key, shape, rep);
    var tail := Rewrite(s[1..], key, shape, rep);
    NoMatchAfterRewrite(s, key, shape, rep, KeyPattern(key, true, shape));
    RewriteSkip(out, key, shape, rep);
    assert out[1..] == tail;
  }

  /** Reading after writing: once some match has been rewritten to a non-empty value, the first
      match of a reading pattern for the same key (with an equal or narrower value class) captures
      exactly that value. A case-sensitive reader needs the key written as the caller spelt it. */
  lemma {:induction false} RewriteThenRead(s: string, key: string, shape: Shape, rep: Replacement, get: KeyPattern)
    requires |key| > 0 && Fits(rep, shape) && |rep.text| > 0
    requires get.key == key && (get.caseless || rep.SpellKey?)
    requires Narrower(get.shape.cls, shape.cls) && (shape.nonEmpty ==> get.shape.nonEmpty)
    requires forall i :: 0 <= i < |rep.text| ==> InClass(rep.text[i], get.shape.cls)
    requires FirstValue(s, KeyPattern(key, true, shape)).Some?
    ensures FirstValue(Rewrite(s, key, shape, rep), get) == Some(rep.text)
    decreases |s|
  {
    var kp := KeyPattern(key, true, shape);
    var out := Rewrite(s, key, shape, rep);
    if MatchesAt(s, kp) {
      var n := |key| + Run(s[|key|..], shape.cls);
      var tail := Rewrite(s[n..], key, shape, rep);
      var k := KeyOut(rep, key, s[..|key|]);
      assert out == k + rep.text + tail && StartsWithCI(k, key) && |k| == |key|
             && (|tail| > 0 ==> !InClass(tail[0], shape.cls)) by {
        RewriteAtMatch(s, key, shape, rep, n);
      }
      ReadWritten(k, rep.text, tail, get);
    } else {
      assert |s| > 0 && FirstValue(s[1..], kp).Some?;
      RewriteThenRead(s[1..], key, shape, rep, get);
      var tail := Rewrite(s[1..], key, shape, rep);
      assert out == [s[0]] + tail && !MatchesAt(out, get) by {
        NoMatchAfterRewrite(s, key, shape, rep, get);
      }
      assert out[1..] == tail;
    }
  }

  /** A key as the reader spells it (up to case when it ignores case), a non-empty value in the
      reader's class and a rest that does not continue it: the reader captures that value. */
  lemma ReadWritten(k: string, text: string, tail: string, get: KeyPattern)
    requires |k| == |get.key| && (if get.caseless then StartsWithCI(k, get.key) else k == get.key)
    requires |text| > 0 && forall i :: 0 <= i < |text| ==> InClass(text[i], get.shape.cls)
    requires |tail| > 0 ==> !InClass(tail[0], get.shape.cls)
    ensures FirstValue(k + text + tail, get) == Some(text)
  {
    var out := k + text + tail;
    assert out[|k|..] == text + tail;
    RunOfConcat(text, tail, get.shape.cls);
    if get.caseless {
      forall i | 0 <= i < |k| ensures Lower(out[i]) == Lower(get.key[i]) {
        assert out[i] == k[i];
      }
    } else {
      assert out[..|k|] == k;
    }
    assert MatchesAt(out, get);
  }

  // The replacement template `$1` followed by a new value, as the PHP code writes it.

  /** With a new value that neither starts with a digit nor holds `$` or a backslash, the
      template as written behaves as intended. */
  lemma EmitAgrees(key: string, keyText: string, value: string, conf: string)
    requires '$' !in conf && '\\' !in conf && (|conf| >= 1 ==> !IsDigit(conf[0]))
    ensures Emit(Template("$1" + conf), key, keyText, value) == Emit(KeepKey(conf), key, keyText, value)
  {
    Template.GroupOneThenPlain(conf, [keyText + value, keyText, value]);
  }

  lemma {:induction false} TemplateAgrees(s: string, key: string, shape: Shape, conf: string)
    requires |key| > 0 && '$' !in conf && '\\' !in conf && (|conf| >= 1 ==> !IsDigit(conf[0]))
    ensures Rewrite(s, key, shape, Template("$1" + conf)) == Rewrite(s, key, shape, KeepKey(conf))
    decreases |s|
  {
    if |s| > 0 {
      if MatchesAt(s, KeyPattern(key, true, shape)) {
        var n := |key| + Run(s[|key|..], shape.cls);
        RewriteStep(s, key, shape, Template("$1" + conf), n);
        RewriteStep(s, key, shape, KeepKey(conf), n);
        EmitAgrees(key, s[..|key|], s[|key|..n], conf);
        TemplateAgrees(s[n..], key, shape, conf);
      } else {
        RewriteSkip(s, key, shape, Template("$1" + conf));
        RewriteSkip(s, key, shape, KeepKey(conf));
        TemplateAgrees(s[1..], key, shape, conf);
      }
    }
  }

  /** A new value starting with a digit turns `$1` into a two-digit group (`$13` for `3307`),
      which does not exist: the key text and the value's first digit are lost. */
  lemma {:induction false} DigitValueAtMatch(s: string, key: string, shape: Shape, conf: string)
    requires |key| > 0 && |conf| >= 1 && IsDigit(conf[0]) && '$' !in conf && '\\' !in conf
    requires MatchesAt(s, KeyPattern(key, true, shape))
    ensures var n := |key| + Run(s[|key|..], shape.cls);
            Rewrite(s, key, shape, Template("$1" + conf)) == conf[1..] + Rewrite(s[n..], key, shape, Template("$1" + conf))
  {
    var n := |key| + Run(s[|key|..], shape.cls);
    var rep := Template("$1" + conf);
    var rest := Rewrite(s[n..], key, shape, rep);
    assert Rewrite(s, key, shape, rep) == Emit(rep, key, s[..|key|], s[|key|..n]) + rest by {
      RewriteStep(s, key, shape, rep, n);
    }
    assert Emit(rep, key, s[..|key|], s[|key|..n]) == conf[1..] by {
      DigitTemplateEmits(key, s[..|key|], s[|key|..n], conf);
    }
  }

  /** What `$1` followed by a digit emits for one match: the text after the digit. */
  lemma DigitTemplateEmits(key: string, keyText: string, value: string, conf: string)
    requires |conf| >= 1 && IsDigit(conf[0]) && '$' !in conf && '\\' !in conf
    ensures Emit(Template("$1" + conf), key, keyText, value) == conf[1..]
  {
    var groups := [keyText + value, keyText, value];
    Template.DigitAfterGroupOne(conf, groups);
    assert forall c :: c in conf[1..] ==> c in conf;
  }

}
