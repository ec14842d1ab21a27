/**
 * The `.env` file of the Docker environment read and written the way the Emakina environment
 * does: `getEnvData`, `isVariableUsed`, `getVariableValue` and `setVariableValue`.
 */
module EnvFile {
  import opened Wrappers
  import opened Text
  import opened Pattern
  import opened Process

  /** `getEnvData`: the word run after the first `NAME=` (name upper-cased, matched exactly),
      or the empty string. */
  function EnvData(content: string, name: string): (v: string)
    ensures forall i :: 0 <= i < |v| ==> IsWordChar(v[i])
    ensures v == "" <==> FirstValue(content, KeyPattern(UpperStr(name) + "=", false, WordPlus)).None?
  {
    FirstValue(content, KeyPattern(UpperStr(name) + "=", false, WordPlus)).GetOr("")
  }

  /** The name is upper-cased before the search, so its case does not matter. */
  lemma EnvDataIgnoresNameCase(content: string, name: string)
    ensures EnvData(content, LowerStr(name)) == EnvData(content, name)
  {
    assert UpperStr(LowerStr(name)) == UpperStr(name);
  }

  /** The placeholder the compose file uses for a variable. */
  function Placeholder(variable: string): string {
    "${" + variable + "}"
  }

  /** `isVariableUsed`: the compose file mentions `${VARIABLE}`, in any case. */
  function IsVariableUsed(compose: string, variable: string): (r: bool)
    ensures r <==> exists j :: AtCI(compose, j, Placeholder(variable))
  {
    FindCI(compose, Placeholder(variable)).Some?
  }

  lemma IsVariableUsedIgnoresCase(compose: string, variable: string)
    ensures IsVariableUsed(LowerStr(compose), variable) == IsVariableUsed(compose, variable)
  {
    FindCIFromIgnoresCase(compose, Placeholder(variable), 0);
  }

  /** The pattern `getVariableValue` reads with: `VARIABLE=` in any case, then `\S+`. */
  function ValuePattern(variable: string): KeyPattern {
    KeyPattern(variable + "=", true, NonSpacePlus)
  }

  /** `getVariableValue`: empty for a variable the compose file does not use; otherwise the first
      non-space value of the variable, or an `EnvironmentException` when it has none. */
  function VariableValue(compose: string, content: string, variable: string): (r: Result<string, Failure>)
    ensures !IsVariableUsed(compose, variable) ==> r == Success("")
    ensures r.Failure? <==> IsVariableUsed(compose, variable) && FirstValue(content, ValuePattern(variable)).None?
    ensures r.Failure? ==> r.error == EnvironmentException(variable + " is undefined, ensure .env is correctly filled")
    ensures r.Success? && IsVariableUsed(compose, variable) ==>
      |r.value| > 0 && forall i :: 0 <= i < |r.value| ==> !IsSpace(r.value[i])
  {
    if !IsVariableUsed(compose, variable) then Success("")
    else match FirstValue(content, ValuePattern(variable))
      case None => Failure(EnvironmentException(variable + " is undefined, ensure .env is correctly filled"))
      case Some(v) => Success(v)
  }

  /** `setVariableValue`: every `VARIABLE=` (any case) and the non-space run after it become
      `VARIABLE=value`, spelt as the caller spells the variable; without `VARIABLE=` the text is
      left as it is. */
  function SetVariable(content: string, variable: string, value: string): (r: string)
    ensures FirstValue(content, KeyPattern(variable + "=", true, NonSpaceStar)).None? ==> r == content
  {
    Rewrite(content, variable + "=", NonSpaceStar, SpellKey(value))
  }

  /** The variable is written where it was, so `getVariableValue` reads back the new value. */
  lemma SetThenGet(compose: string, content: string, variable: string, value: string)
    requires IsVariableUsed(compose, variable)
    requires |value| > 0 && forall i :: 0 <= i < |value| ==> !IsSpace(value[i])
    requires FirstValue(content, KeyPattern(variable + "=", true, NonSpaceStar)).Some?
    ensures VariableValue(compose, SetVariable(content, variable, value), variable) == Success(value)
  {
    RewriteThenRead(content, variable + "=", NonSpaceStar, SpellKey(value), ValuePattern(variable));
  }

  /** An upper-case variable written with a word value is read back by `getEnvData` too. */
  lemma SetThenEnvData(content: string, name: string, value: string)
    requires |value| > 0 && forall i :: 0 <= i < |value| ==> IsWordChar(value[i])
    requires FirstValue(content, KeyPattern(UpperStr(name) + "=", true, NonSpaceStar)).Some?
    ensures EnvData(SetVariable(content, UpperStr(name), value), name) == value
  {
    var key := UpperStr(name) + "=";
    RewriteThenRead(content, key, NonSpaceStar, SpellKey(value), KeyPattern(key, false, WordPlus));
  }

  /** Setting the same value twice has the effect of setting it once. */
  lemma SetIdempotent(content: string, variable: string, value: string)
    requires forall i :: 0 <= i < |value| ==> !IsSpace(value[i])
    ensures SetVariable(SetVariable(content, variable, value), variable, value) == SetVariable(content, variable, value)
  {
    RewriteIdempotent(content, variable + "=", NonSpaceStar, SpellKey(value));
  }

  /** The replacement `"VARIABLE=value"` is a template; without `$` or a backslash in it, it is
      copied as it is, as `SetVariable` takes it. */
  lemma {:induction false} SetVariableTemplate(content: string, variable: string, value: string)
    requires '$' !in variable + "=" + value && '\\' !in variable + "=" + value
    ensures Rewrite(content, variable + "=", NonSpaceStar, Template(variable + "=" + value)) == SetVariable(content, variable, value)
    decreases |content|
  {
    if |content| > 0 {
      var key := variable + "=";
      if MatchesAt(content, KeyPattern(key, true, NonSpaceStar)) {
        var n := |key| + Run(content[|key|..], NonSpace);
        assert Template.Expand(variable + "=" + value, [content[..|key|] + content[|key|..n], content[..|key|], content[|key|..n]]) == variable + "=" + value;
        SetVariableTemplate(content[n..], variable, value);
      } else {
        SetVariableTemplate(content[1..], variable, value);
      }
    }
  }
}
