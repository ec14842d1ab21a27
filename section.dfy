/**
 * `configureEnv`: the `.env` entries whose key starts with a section prefix (`blackfire`,
 * `mysql`, an image type), found with `preg_match_all('/(prefix\w+)=(\w*)/im')` (anchored at
 * line start with `^` in the Emakina environment, unanchored in the install command), and the
 * rewrite of each entry whose answer is non-empty and differs from the current value.
 */
module Section {
  import opened Wrappers
  import opened Text
  import opened Pattern
  import Template

  /** One match: where it starts, the key (group 1) and the current value (group 2). */
  datatype Entry = Entry(pos: nat, key: string, value: string)

  /** Number of characters a match takes up: key, `=`, value. */
  function Len(e: Entry): nat {
    |e.key| + 1 + |e.value|
  }

  /** `^` in multiline mode: the start of the text or just after a line feed. */
  predicate LineStart(s: string, i: nat) {
    i == 0 || (i <= |s| && s[i - 1] == '\n')
  }

  /** `(prefix\w+)=(\w*)` matched at offset `i`, ignoring case. `\w+` cannot give back
      characters to let `=` match, so the key is the prefix and the whole word run after it. */
  function EntryAt(s: string, prefix: string, i: nat): (r: Option<Entry>)
    ensures r.Some? ==> r.value.pos == i && |r.value.key| > |prefix|
  {
    if !AtCI(s, i, prefix) then None
    else
      var n := Run(s[i + |prefix|..], Word);
      var eq := i + |prefix| + n;
      if n == 0 || eq >= |s| || s[eq] != '=' then None
      else
        var v := s[eq + 1..];
        Some(Entry(i, s[i..eq], v[..Run(v, Word)]))
  }

  /** A match found at `i` starts there, spells `key=value` with a key that begins with the
      prefix followed by word characters, a value of word characters, and is not followed by
      another word character. */
  lemma EntryAtSound(s: string, prefix: string, i: nat)
    ensures var r := EntryAt(s, prefix, i);
      && (r.Some? ==> r.value.pos == i && At(s, i, r.value.key + "=" + r.value.value))
      && (r.Some? ==> StartsWithCI(r.value.key, prefix) && |r.value.key| > |prefix|)
      && (r.Some? ==> forall k :: |prefix| <= k < |r.value.key| ==> IsWordChar(r.value.key[k]))
      && (r.Some? ==> forall k :: 0 <= k < |r.value.value| ==> IsWordChar(r.value.value[k]))
      && (r.Some? ==> i + Len(r.value) <= |s| && (i + Len(r.value) < |s| ==> !IsWordChar(s[i + Len(r.value)])))
  {
    var r := EntryAt(s, prefix, i);
    if r.Some? {
      var e := r.value;
      var eq := EntryParts(s, prefix, i);
      var v := s[eq + 1..];
      assert At(s, i, e.key + "=" + e.value) by {
        SpellsEntry(s, i, e.key, e.value, eq);
      }
      assert StartsWithCI(e.key, prefix) by {
        forall j | 0 <= j < |prefix| ensures Lower(e.key[j]) == Lower(prefix[j]) {
          assert e.key[j] == s[i + j];
        }
      }
      forall k | |prefix| <= k < |e.key| ensures IsWordChar(e.key[k]) {
        assert e.key[k] == s[i + |prefix|..][k - |prefix|];
      }
    }
  }

  /** The parts of a match found at `i`: the `=` sits at the returned offset, the key is the text
      before it and the value the word run after it. */
  lemma EntryParts(s: string, prefix: string, i: nat) returns (eq: nat)
    requires EntryAt(s, prefix, i).Some?
    ensures var e := EntryAt(s, prefix, i).value;
      && AtCI(s, i, prefix) && i + |prefix| < eq < |s| && s[eq] == '=' && eq == i + |e.key|
      && e.pos == i && e.key == s[i..eq] && eq - i - |prefix| == Run(s[i + |prefix|..], Word)
      && e.value == s[eq + 1..][..Run(s[eq + 1..], Word)]
  {
    eq := i + |EntryAt(s, prefix, i).value.key|;
  }

  /** A key, `=` and a value read off consecutive stretches of the text spell `key=value` there. */
  lemma SpellsEntry(s: string, i: nat, key: string, value: string, eq: nat)
    requires i <= eq < |s| && key == s[i..eq] && s[eq] == '='
    requires eq + 1 + |value| <= |s| && value == s[eq + 1..][..|value|]
    ensures At(s, i, key + "=" + value)
  {
    var w := key + "=" + value;
    forall j | 0 <= j < |w| ensures s[i + j] == w[j] {
      if j > |key| {
        assert w[j] == value[j - |key| - 1];
      }
    }
  }

  /** A match may start at `i`. */
  predicate Candidate(s: string, prefix: string, anchored: bool, i: nat) {
    (!anchored || LineStart(s, i)) && EntryAt(s, prefix, i).Some?
  }

  /** `preg_match_all` from offset `i`: leftmost match first, the search resuming after it. */
  function Scan(s: string, prefix: string, anchored: bool, i: nat): (es: seq<Entry>)
    decreases |s| - i
    ensures forall k :: 0 <= k < |es| ==>
      i <= es[k].pos && Candidate(s, prefix, anchored, es[k].pos) && EntryAt(s, prefix, es[k].pos) == Some(es[k])
    ensures forall k :: 0 < k < |es| ==> es[k - 1].pos + Len(es[k - 1]) <= es[k].pos
  {
    if i >= |s| then []
    else if Candidate(s, prefix, anchored, i) then
      var e := EntryAt(s, prefix, i).value;
      var rest := Scan(s, prefix, anchored, i + Len(e));
      var es := [e] + rest;
      assert es[0] == e && e.pos == i;
      assert forall k :: 0 < k < |es| ==> es[k] == rest[k - 1];
      es
    else Scan(s, prefix, anchored, i + 1)
  }

  /** One step of the scan where no match starts. */
  lemma ScanSkip(s: string, prefix: string, anchored: bool, i: nat)
    requires i < |s| && !Candidate(s, prefix, anchored, i)
    ensures Scan(s, prefix, anchored, i) == Scan(s, prefix, anchored, i + 1)
  {
  }

  /** One step of the scan at a match `e`. */
  lemma ScanTake(s: string, prefix: string, anchored: bool, i: nat, e: Entry)
    requires i < |s| && (!anchored || LineStart(s, i)) && EntryAt(s, prefix, i) == Some(e)
    ensures Scan(s, prefix, anchored, i) == [e] + Scan(s, prefix, anchored, i + Len(e))
  {
    assert Candidate(s, prefix, anchored, i);
  }

  /** The scan finds nothing exactly when no offset from `i` on can start a match. */
  lemma {:induction false} ScanEmpty(s: string, prefix: string, anchored: bool, i: nat)
    ensures |Scan(s, prefix, anchored, i)| == 0 <==> forall j :: i <= j < |s| ==> !Candidate(s, prefix, anchored, j)
    decreases |s| - i
  {
    if i >= |s| {
      assert Scan(s, prefix, anchored, i) == [];
    } else if Candidate(s, prefix, anchored, i) {
      assert |Scan(s, prefix, anchored, i)| > 0;
    } else {
      assert Scan(s, prefix, anchored, i) == Scan(s, prefix, anchored, i + 1);
      ScanEmpty(s, prefix, anchored, i + 1);
    }
  }

  /** All matches, in file order and without overlap, each a match at its own position. */
  function Entries(s: string, prefix: string, anchored: bool): (es: seq<Entry>)
    ensures forall k :: 0 <= k < |es| ==> Candidate(s, prefix, anchored, es[k].pos) && EntryAt(s, prefix, es[k].pos) == Some(es[k])
    ensures forall k :: 0 < k < |es| ==> es[k - 1].pos + Len(es[k - 1]) <= es[k].pos
  {
    Scan(s, prefix, anchored, 0)
  }

  /** The answer to the prompt for match `k`; a missing answer accepts the default (the value). */
  function AnswerFor(answers: seq<string>, k: nat, e: Entry): string {
    if k < |answers| then answers[k] else e.value
  }

  /** One prompt's effect: a non-empty answer that differs from the current value rewrites every
      `key=` (any case) followed by a word run; any other answer, or a text without `key=`,
      is left alone. */
  function Apply(content: string, e: Entry, conf: string): (r: string)
    ensures FirstValue(content, KeyPattern(e.key + "=", true, WordStar)).None? ==> r == content
  {
    if conf != "" && conf != e.value then Rewrite(content, e.key + "=", WordStar, KeepKey(conf))
    else content
  }

  /** The text after the prompts for the matches `es`, answered in order. Accepting every
      default (or answering with an empty string) leaves the text unchanged. */
  function Configured(content: string, es: seq<Entry>, answers: seq<string>): (r: string)
    ensures (forall k :: 0 <= k < |es| ==> AnswerFor(answers, k, es[k]) in {"", es[k].value}) ==> r == content
    decreases |es|
  {
    if |es| == 0 then content
    else
      var init := es[..|es| - 1];
      assert forall k :: 0 <= k < |init| ==> init[k] == es[k];
      Apply(Configured(content, init, answers), es[|es| - 1], AnswerFor(answers, |es| - 1, es[|es| - 1]))
  }

  /** A whole `configureEnv` run on one section: every match prompted for, in file order. With
      no answers given every default is accepted, and the text is unchanged. */
  function ConfigureSection(content: string, prefix: string, anchored: bool, answers: seq<string>): (r: string)
    ensures answers == [] ==> r == content
  {
    Configured(content, Entries(content, prefix, anchored), answers)
  }

  /** Every match found starts at a line start when anchored, holds a key that begins with the
      prefix, and is in file order without overlap. */
  lemma EntriesSound(s: string, prefix: string, anchored: bool)
    ensures forall k :: 0 <= k < |Entries(s, prefix, anchored)| ==>
      var e := Entries(s, prefix, anchored)[k];
      (anchored ==> LineStart(s, e.pos)) && StartsWithCI(e.key, prefix) && At(s, e.pos, e.key + "=" + e.value)
    ensures forall k :: 0 < k < |Entries(s, prefix, anchored)| ==>
      Entries(s, prefix, anchored)[k - 1].pos < Entries(s, prefix, anchored)[k].pos
  {
    var es := Entries(s, prefix, anchored);
    forall k | 0 <= k < |es|
      ensures (anchored ==> LineStart(s, es[k].pos)) && StartsWithCI(es[k].key, prefix)
      ensures At(s, es[k].pos, es[k].key + "=" + es[k].value)
    {
      EntryAtSound(s, prefix, es[k].pos);
    }
  }

  /** A text with no matches is not touched: no prompt, no rewrite. */
  lemma NoEntriesNoChange(content: string, prefix: string, anchored: bool, answers: seq<string>)
    requires forall j :: 0 <= j < |content| ==> !Candidate(content, prefix, anchored, j)
    ensures Entries(content, prefix, anchored) == []
    ensures Configured(content, Entries(content, prefix, anchored), answers) == content
  {
    ScanEmpty(content, prefix, anchored, 0);
  }

  /** After a rewrite with a word answer, the first `key=` entry reads back the answer. */
  lemma ApplyThenRead(content: string, e: Entry, conf: string)
    requires |conf| > 0 && conf != e.value && forall i :: 0 <= i < |conf| ==> IsWordChar(conf[i])
    requires FirstValue(content, KeyPattern(e.key + "=", true, WordStar)).Some?
    ensures FirstValue(Apply(content, e, conf), KeyPattern(e.key + "=", true, WordStar)) == Some(conf)
  {
    RewriteThenRead(content, e.key + "=", WordStar, KeepKey(conf), KeyPattern(e.key + "=", true, WordStar));
  }

  /** Answering the same word value twice has the effect of answering it once. */
  lemma ApplyIdempotent(content: string, e: Entry, conf: string)
    requires forall i :: 0 <= i < |conf| ==> IsWordChar(conf[i])
    ensures Apply(Apply(content, e, conf), e, conf) == Apply(content, e, conf)
  {
    if conf != "" && conf != e.value {
      RewriteIdempotent(content, e.key + "=", WordStar, KeepKey(conf));
    }
  }

  /** An anchored match is also an unanchored one: the install command sees every entry the
      Emakina environment sees, and more. */
  lemma AnchoredIsUnanchored(s: string, prefix: string, i: nat)
    ensures Candidate(s, prefix, true, i) ==> Candidate(s, prefix, false, i)
  {
  }

  /** On a single line that does not start with the prefix, the anchored scan finds nothing. */
  lemma {:induction false} AnchoredNeedsLineStart(s: string, prefix: string)
    requires '\n' !in s && !AtCI(s, 0, prefix)
    ensures Entries(s, prefix, true) == []
  {
    forall j | 0 <= j < |s| ensures !Candidate(s, prefix, true, j) {
      if j > 0 {
        assert s[j - 1] in s;
      }
    }
    ScanEmpty(s, prefix, true, 0);
  }

  /** The match at `i` read off the text: the prefix, word characters up to the `=` at `eq`,
      then the value's word characters up to `end`, which no word character follows. */
  lemma EntryAtWhen(s: string, prefix: string, i: nat, eq: nat, end: nat)
    requires AtCI(s, i, prefix) && i + |prefix| < eq < end <= |s| && s[eq] == '='
    requires forall k :: i + |prefix| <= k < eq ==> IsWordChar(s[k])
    requires forall k :: eq < k < end ==> IsWordChar(s[k])
    requires end < |s| ==> !IsWordChar(s[end])
    ensures EntryAt(s, prefix, i) == Some(Entry(i, s[i..eq], s[eq + 1..end]))
  {
    var u := s[i + |prefix|..];
    RunExactly(u, eq - i - |prefix|, Word);
    var v := s[eq + 1..];
    RunExactly(v, end - eq - 1, Word);
    assert v[..end - eq - 1] == s[eq + 1..end];
  }

  /** An entry indented by one space is seen by the unanchored scan, as the only match, and not
      by the anchored one. */
  lemma {:induction false} IndentedEntry(prefix: string, key: string, value: string)
    requires |prefix| > 0 && IsWordChar(prefix[0])
    requires StartsWithCI(key, prefix) && |key| > |prefix|
    requires forall k :: 0 <= k < |key| ==> IsWordChar(key[k])
    requires forall k :: 0 <= k < |value| ==> IsWordChar(value[k])
    ensures Entries(" " + key + "=" + value, prefix, true) == []
    ensures Entries(" " + key + "=" + value, prefix, false) == [Entry(1, key, value)]
  {
    var s := " " + key + "=" + value;
    var eq := 1 + |key|;
    assert s[0] == ' ' && s[eq] == '=' && s[1..eq] == key && s[eq + 1..] == value;
    assert forall k :: 1 <= k < eq ==> s[k] == key[k - 1];
    assert forall k :: eq < k < |s| ==> s[k] == value[k - eq - 1];
    assert !AtCI(s, 0, prefix) by {
      assert Lower(s[0]) != Lower(prefix[0]);
    }
    assert Entries(s, prefix, true) == [] by {
      forall k | 0 <= k < |s| ensures s[k] != '\n' {
      }
      assert '\n' !in s;
      AnchoredNeedsLineStart(s, prefix);
    }
    assert AtCI(s, 1, prefix) by {
      forall k | 0 <= k < |prefix| ensures Lower(s[1 + k]) == Lower(prefix[k]) {
        assert s[1 + k] == key[k];
      }
    }
    var e := Entry(1, key, value);
    assert EntryAt(s, prefix, 1) == Some(e) by {
      EntryAtWhen(s, prefix, 1, eq, |s|);
      assert s[eq + 1..|s|] == s[eq + 1..];
    }
    ScanSkip(s, prefix, false, 0);
    ScanTake(s, prefix, false, 1, e);
    assert 1 + Len(e) == |s|;
  }

  // The rewrite as the source writes it: the replacement template `$1` followed by the answer.

  /** `preg_replace` with the template `"$1" + conf`, as written. */
  function AsWrittenApply(content: string, e: Entry, conf: string): string {
    if conf != "" && conf != e.value then Rewrite(content, e.key + "=", WordStar, Template("$1" + conf))
    else content
  }

  lemma AsWrittenAgrees(content: string, e: Entry, conf: string)
    requires '$' !in conf && '\\' !in conf && (|conf| >= 1 ==> !IsDigit(conf[0]))
    ensures AsWrittenApply(content, e, conf) == Apply(content, e, conf)
  {
    TemplateAgrees(content, e.key + "=", WordStar, conf);
  }

  /** The finding: on a `KEY=value` entry, an answer that starts with a digit loses the key and
      its own first digit as written, while the intended rewrite gives `KEY=answer`. */
  lemma {:induction false} DigitAnswerLosesKey(key: string, value: string, conf: string)
    requires |key| > 0 && forall k :: 0 <= k < |value| ==> IsWordChar(value[k])
    requires |conf| >= 1 && IsDigit(conf[0]) && '$' !in conf && '\\' !in conf && conf != value
    ensures AsWrittenApply(key + "=" + value, Entry(0, key, value), conf) == conf[1..]
    ensures Apply(key + "=" + value, Entry(0, key, value), conf) == key + "=" + conf
  {
    var s := key + "=" + value;
    var kk := key + "=";
    assert s == kk + value;
    assert s[..|kk|] == kk && s[|kk|..] == value;
    assert MatchesAt(s, KeyPattern(kk, true, WordStar)) && |s| == |kk| + Run(s[|kk|..], Word) by {
      forall i | 0 <= i < |kk| ensures Lower(s[i]) == Lower(kk[i]) {
      }
      RunExactly(value, |value|, Word);
    }
    assert s[|s|..] == "";
    assert AsWrittenApply(s, Entry(0, key, value), conf) == conf[1..] by {
      DigitValueAtMatch(s, kk, WordStar, conf);
    }
    assert Apply(s, Entry(0, key, value), conf) == key + "=" + conf by {
      RewriteAtMatchSplit(s, kk, WordStar, KeepKey(conf), |s|);
    }
  }

  /** The example behind the finding: a port `3306` answered with `3307` leaves `307`. */
  lemma PortAnswerLosesKey()
    ensures AsWrittenApply("MYSQL_PORT" + "=" + "3306", Entry(0, "MYSQL_PORT", "3306"), "3307") == "307"
    ensures Apply("MYSQL_PORT" + "=" + "3306", Entry(0, "MYSQL_PORT", "3306"), "3307") == "MYSQL_PORT" + "=" + "3307"
  {
    assert "3307"[1..] == "307";
    assert "3307"[3] != "3306"[3];
    DigitAnswerLosesKey("MYSQL_PORT", "3306", "3307");
  }
}
