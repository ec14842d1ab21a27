/**
 * The replacement string of `preg_replace`, as PHP expands it: `\n`, `$n` and `${n}` (n one or
 * two digits) stand for capture group n, a group number with no such group stands for nothing,
 * and a backslash before `\` or `$` makes that character literal.
 */
module Template {
  import opened Wrappers
  import opened Text

  /** A group reference at the start of `t` (which begins with `$` or `\`): the group number and
      the number of template characters it takes up. */
  function Backref(t: string): (r: Option<(nat, nat)>)
    requires |t| >= 1
    ensures r.Some? ==> 2 <= r.value.1 <= |t| && r.value.0 < 100
  {
    if |t| < 2 || t[1] == '\0' then None
    else
      var brace := t[0] == '$' && t[1] == '{';
      var i := if brace then 2 else 1;
      if i < |t| && IsDigit(t[i]) then
        var d := t[i] as int - '0' as int;
        var twoDigits := i + 1 < |t| && IsDigit(t[i + 1]);
        var n := if twoDigits then d * 10 + (t[i + 1] as int - '0' as int) else d;
        var j := if twoDigits then i + 2 else i + 1;
        if !brace then Some((n, j))
        else if j < |t| && t[j] == '}' then Some((n, j + 1))
        else None
      else None
  }

  /** The text a match is replaced with, given the template and the match's groups
      (group 0 is the whole match). A template with no `$` and no backslash is copied as it is. */
  function Expand(t: string, groups: seq<string>): (r: string)
    ensures '$' !in t && '\\' !in t ==> r == t
    decreases |t|
  {
    if |t| == 0 then ""
    else
      assert t[0] in t && t == [t[0]] + t[1..];
      assert forall c :: c in t[1..] ==> c in t;
      if t[0] == '\\' || t[0] == '$' then
        match Backref(t)
        case Some((n, len)) => (if n < |groups| then groups[n] else "") + Expand(t[len..], groups)
        case None =>
          if t[0] == '\\' && |t| >= 2 && (t[1] == '\\' || t[1] == '$') then [t[1]] + Expand(t[2..], groups)
          else [t[0]] + Expand(t[1..], groups)
      else [t[0]] + Expand(t[1..], groups)
  }

  /** `$1` followed by a value that starts with a digit is read as the two-digit group `$1d`;
      with only groups 0 to 2 that group does not exist, so the key text of group 1 is lost
      together with the digit. */
  lemma DigitAfterGroupOne(value: string, groups: seq<string>)
    requires |groups| == 3 && |value| >= 1 && IsDigit(value[0])
    ensures Expand("$1" + value, groups) == Expand(value[1..], groups)
  {
    var t := "$1" + value;
    assert t[0] == '$' && t[1] == '1' && t[2] == value[0];
    assert Backref(t) == Some((10 + (value[0] as int - '0' as int), 3));
    assert t[3..] == value[1..];
  }

  /** `$1` followed by a value that neither starts with a digit nor holds `$` or a backslash
      gives group 1 followed by the value, as the template's author meant. */
  lemma GroupOneThenPlain(value: string, groups: seq<string>)
    requires |groups| == 3 && '$' !in value && '\\' !in value
    requires |value| >= 1 ==> !IsDigit(value[0])
    ensures Expand("$1" + value, groups) == groups[1] + value
  {
    var t := "$1" + value;
    assert t[0] == '$' && t[1] == '1';
    assert Backref(t) == Some((1, 2));
    assert t[2..] == value;
  }
}
