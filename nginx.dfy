/**
 * The `server_name` directive of `docker/local/nginx.conf`: the current name, read with
 * `preg_match_all('/server_name (\S*);/m')` (the first match), and the rename, done with
 * `preg_replace('/(server_name )(\S+)/i', "$1{$serverName};")`.
 */
module Nginx {
  import opened Wrappers
  import opened Text
  import opened Pattern

  const Directive := "server_name "

  /** Offset of the last `;` of `t`, if any. */
  function LastSemicolon(t: string): (r: Option<nat>)
    ensures r.Some? ==> r.value < |t| && t[r.value] == ';' && forall i :: r.value < i < |t| ==> t[i] != ';'
    ensures r.None? ==> forall i :: 0 <= i < |t| ==> t[i] != ';'
  {
    if |t| == 0 then None
    else if t[|t| - 1] == ';' then Some(|t| - 1)
    else LastSemicolon(t[..|t| - 1])
  }

  /** `server_name (\S*);` at the start of `s`, case-sensitive. `\S*` takes the whole non-space
      run and gives characters back until a `;` follows, so the name ends at the run's last `;`. */
  function NameAt(s: string): (r: Option<string>)
    ensures r.Some? ==> At(s, 0, Directive) && |Directive| + |r.value| < |s| && s[|Directive| + |r.value|] == ';'
    ensures r.Some? ==> forall i :: 0 <= i < |r.value| ==> !IsSpace(r.value[i])
    ensures r.Some? ==> MatchesAt(s, KeyPattern(Directive, false, NonSpacePlus))
  {
    if !At(s, 0, Directive) then None
    else
      var v := s[|Directive|..];
      match LastSemicolon(v[..Run(v, NonSpace)])
      case None => None
      case Some(k) => Some(v[..k])
  }

  /** The capture of the first match: a name without spaces. */
  function FirstName(s: string): (r: Option<string>)
    ensures r.Some? ==> forall k :: 0 <= k < |r.value| ==> !IsSpace(r.value[k])
    decreases |s|
  {
    if NameAt(s).Some? then NameAt(s)
    else if |s| == 0 then None
    else FirstName(s[1..])
  }

  /** No name is found exactly when no offset holds a match; otherwise the name is the capture
      of the leftmost match. */
  lemma {:induction false} FirstNameIsLeftmost(s: string)
    ensures FirstName(s).None? <==> forall j :: 0 <= j <= |s| ==> NameAt(s[j..]).None?
    ensures FirstName(s).Some? ==>
      exists j :: 0 <= j <= |s| && FirstName(s) == NameAt(s[j..]) && forall i :: 0 <= i < j ==> NameAt(s[i..]).None?
    decreases |s|
  {
    assert s[0..] == s;
    if NameAt(s).None? && |s| > 0 {
      FirstNameIsLeftmost(s[1..]);
      assert forall j :: 0 <= j <= |s| - 1 ==> s[1..][j..] == s[j + 1..];
      assert forall j :: 1 <= j <= |s| ==> s[j..] == s[1..][j - 1..];
      if FirstName(s).Some? {
        var j :| 0 <= j <= |s[1..]| && FirstName(s[1..]) == NameAt(s[1..][j..])
                 && forall i :: 0 <= i < j ==> NameAt(s[1..][i..]).None?;
        assert FirstName(s) == NameAt(s[j + 1..]);
        forall i | 0 <= i < j + 1 ensures NameAt(s[i..]).None? {
          if i > 0 {
            assert s[i..] == s[1..][i - 1..];
          }
        }
      }
    }
  }

  /** `getServerName` of the Emakina environment: the first name, prefixed with
      `https://www.` when complete; with no match PHP yields null, which concatenates as "". */
  function ServerName(conf: string, complete: bool): (r: string)
    ensures FirstName(conf).Some? ==> r == (if complete then "https://www." else "") + FirstName(conf).value
    ensures FirstName(conf).None? ==> r == if complete then "https://www." else ""
  {
    (if complete then "https://www." else "") + FirstName(conf).GetOr("")
  }

  /** The rename: every `server_name ` (any case) with the non-space run after it becomes the
      directive as it was spelt, the new name and `;`; a file without the directive is not
      changed. */
  function Rename(conf: string, name: string): (r: string)
    ensures FirstValue(conf, KeyPattern(Directive, true, NonSpacePlus)).None? ==> r == conf
  {
    Rewrite(conf, Directive, NonSpacePlus, KeepKey(name + ";"))
  }

  /** Every occurrence of the directive, in any case, is written in lower case. */
  predicate LowerCaseDirectives(s: string) {
    forall j :: 0 <= j <= |s| && AtCI(s, j, Directive) ==> At(s, j, Directive)
  }

  lemma LowerCaseDirectivesTail(s: string)
    requires |s| > 0 && LowerCaseDirectives(s)
    ensures LowerCaseDirectives(s[1..])
  {
    forall j | 0 <= j <= |s[1..]| && AtCI(s[1..], j, Directive) ensures At(s[1..], j, Directive) {
      assert AtCI(s, j + 1, Directive) by {
        forall i | 0 <= i < |Directive| ensures Lower(s[j + 1 + i]) == Lower(Directive[i]) {
          assert s[1..][j + i] == s[j + 1 + i];
        }
      }
      forall i | 0 <= i < |Directive| ensures s[1..][j + i] == Directive[i] {
        assert s[1..][j + i] == s[j + 1 + i];
      }
    }
  }

  /** After a rename to a name without spaces or `;`, the name read back is the new one. */
  lemma {:induction false} RenameThenRead(s: string, name: string)
    requires LowerCaseDirectives(s)
    requires forall i :: 0 <= i < |name| ==> !IsSpace(name[i]) && name[i] != ';'
    requires FirstValue(s, KeyPattern(Directive, true, NonSpacePlus)).Some?
    ensures FirstName(Rename(s, name)) == Some(name)
    decreases |s|
  {
    var rep := KeepKey(name + ";");
    var out := Rename(s, name);
    if MatchesAt(s, KeyPattern(Directive, true, NonSpacePlus)) {
      var n := |Directive| + Run(s[|Directive|..], NonSpace);
      var tail := Rewrite(s[n..], Directive, NonSpacePlus, rep);
      assert out == Directive + (name + ";") + tail && (|tail| > 0 ==> IsSpace(tail[0])) by {
        RewriteAtMatch(s, Directive, NonSpacePlus, rep, n);
        assert At(s, 0, Directive);
        assert s[..|Directive|] == Directive;
      }
      NameAtWritten(name, tail);
    } else {
      NoMatchAfterRewrite(s, Directive, NonSpacePlus, rep, KeyPattern(Directive, false, NonSpacePlus));
      assert NameAt(out).None?;
      assert out[1..] == Rename(s[1..], name);
      LowerCaseDirectivesTail(s);
      RenameThenRead(s[1..], name);
    }
  }

  /** The directive written with a name and `;` is read back as that name, whatever follows. */
  lemma NameAtWritten(name: string, tail: string)
    requires forall i :: 0 <= i < |name| ==> !IsSpace(name[i]) && name[i] != ';'
    requires |tail| > 0 ==> IsSpace(tail[0])
    ensures NameAt(Directive + (name + ";") + tail) == Some(name)
  {
    var out := Directive + (name + ";") + tail;
    var v := out[|Directive|..];
    assert v == (name + ";") + tail;
    RunOfConcat(name + ";", tail, NonSpace);
    assert v[..Run(v, NonSpace)] == name + ";";
    assert LastSemicolon(name + ";") == Some(|name|);
    assert v[..|name|] == name;
    assert At(out, 0, Directive);
  }

  /** The Emakina environment reads back the new name, prefixed when complete. */
  lemma RenameThenServerName(s: string, name: string, complete: bool)
    requires LowerCaseDirectives(s)
    requires forall i :: 0 <= i < |name| ==> !IsSpace(name[i]) && name[i] != ';'
    requires FirstValue(s, KeyPattern(Directive, true, NonSpacePlus)).Some?
    ensures ServerName(Rename(s, name), complete) == (if complete then "https://www." else "") + name
  {
    RenameThenRead(s, name);
  }

  /** Renaming twice to the same name has the effect of renaming once. */
  lemma RenameIdempotent(s: string, name: string)
    requires forall i :: 0 <= i < |name| ==> !IsSpace(name[i])
    ensures Rename(Rename(s, name), name) == Rename(s, name)
  {
    RewriteIdempotent(s, Directive, NonSpacePlus, KeepKey(name + ";"));
  }

  // The rename as the source writes it: the template `$1`, then the name and `;`.

  function AsWrittenRename(conf: string, name: string): string {
    Rewrite(conf, Directive, NonSpacePlus, Template("$1" + name + ";"))
  }

  /** A name that neither starts with a digit nor holds `$` or a backslash is written as meant. */
  lemma AsWrittenRenameAgrees(conf: string, name: string)
    requires '$' !in name && '\\' !in name && (|name| >= 1 ==> !IsDigit(name[0]))
    ensures AsWrittenRename(conf, name) == Rename(conf, name)
  {
    assert "$1" + name + ";" == "$1" + (name + ";");
    TemplateAgrees(conf, Directive, NonSpacePlus, name + ";");
  }

  /** A name starting with a digit loses the directive and its own first digit: `$1` followed by
      a digit reads as a two-digit group, which does not exist and is replaced by nothing. */
  lemma {:induction false} DigitNameLosesDirective(v: string, name: string)
    requires |v| > 0 && forall k :: 0 <= k < |v| ==> !IsSpace(v[k])
    requires |name| >= 1 && IsDigit(name[0]) && '$' !in name && '\\' !in name
    ensures AsWrittenRename(Directive + v, name) == name[1..] + ";"
    ensures Rename(Directive + v, name) == Directive + name + ";"
  {
    var s := Directive + v;
    var conf := name + ";";
    assert s[..|Directive|] == Directive && s[|Directive|..] == v;
    assert MatchesAt(s, KeyPattern(Directive, true, NonSpacePlus)) && |s| == |Directive| + Run(s[|Directive|..], NonSpace) by {
      forall i | 0 <= i < |Directive| ensures Lower(s[i]) == Lower(Directive[i]) {
      }
      RunExactly(v, |v|, NonSpace);
    }
    assert s[|s|..] == "";
    assert "$1" + name + ";" == "$1" + conf;
    assert conf[1..] == name[1..] + ";";
    assert AsWrittenRename(s, name) == conf[1..] by {
      DigitValueAtMatch(s, Directive, NonSpacePlus, conf);
    }
    assert Rename(s, name) == Directive + conf by {
      RewriteAtMatchSplit(s, Directive, NonSpacePlus, KeepKey(conf), |s|);
    }
  }

  /** The example behind the finding: `server_name magento.local;` renamed to `2shop.local`. */
  lemma SampleNameLosesDirective()
    ensures AsWrittenRename(Directive + "magento.local;", "2shop.local") == "shop.local" + ";"
    ensures Rename(Directive + "magento.local;", "2shop.local") == Directive + "2shop.local" + ";"
  {
    assert "2shop.local"[1..] == "shop.local";
    DigitNameLosesDirective("magento.local;", "2shop.local");
  }
}
