/**
 * Counting services and named volumes in `docker-compose.yml`, as `getContainers` and
 * `getVolumes` do with `preg_match_all('/^( {2})\w+:$/im')` and `'/^( {2})\w+: {}$/im'`:
 * a match cannot cross a line feed, so each counts the lines of one exact shape.
 */
module Compose {
  import opened Text

  /** Two spaces, a word, a colon and nothing else: a service under `services:`. */
  predicate IsServiceLine(l: string) {
    |l| >= 4 && l[0] == ' ' && l[1] == ' ' && l[|l| - 1] == ':'
    && forall i :: 2 <= i < |l| - 1 ==> IsWordChar(l[i])
  }

  /** Two spaces, a word, then `: {}` and nothing else: a volume with no options. */
  predicate IsVolumeLine(l: string) {
    |l| >= 7 && l[0] == ' ' && l[1] == ' ' && l[|l| - 4..] == ": {}"
    && forall i :: 2 <= i < |l| - 4 ==> IsWordChar(l[i])
  }

  datatype Kind = Service | Volume

  predicate IsLine(l: string, kind: Kind) {
    match kind
    case Service => IsServiceLine(l)
    case Volume => IsVolumeLine(l)
  }

  /** The number of lines of the given shape. */
  function Count(ls: seq<string>, kind: Kind): (n: nat)
    ensures n <= |ls|
  {
    if |ls| == 0 then 0 else (if IsLine(ls[0], kind) then 1 else 0) + Count(ls[1..], kind)
  }

  /** The number of service lines of a compose text. */
  function Containers(content: string): (n: nat)
    ensures n <= |Lines(content)|
  {
    Count(Lines(content), Service)
  }

  /** The number of named volumes without options. */
  function Volumes(content: string): (n: nat)
    ensures n <= |Lines(content)|
  {
    Count(Lines(content), Volume)
  }

  /** No line is both a service and a volume line. */
  lemma KindsDisjoint(l: string)
    ensures !(IsServiceLine(l) && IsVolumeLine(l))
  {
  }

  /** Services and volumes together are never more than the lines of the file. */
  lemma {:induction false} CountsBounded(ls: seq<string>)
    ensures Count(ls, Service) + Count(ls, Volume) <= |ls|
  {
    if |ls| > 0 {
      KindsDisjoint(ls[0]);
      CountsBounded(ls[1..]);
    }
  }

  lemma ContainersAndVolumesBounded(content: string)
    ensures Containers(content) + Volumes(content) <= |Lines(content)|
  {
    CountsBounded(Lines(content));
  }

  lemma {:induction false} CountAppend(a: seq<string>, b: seq<string>, kind: Kind)
    ensures Count(a + b, kind) == Count(a, kind) + Count(b, kind)
  {
    if |a| == 0 {
      assert a + b == b;
    } else {
      assert (a + b)[1..] == a[1..] + b;
      CountAppend(a[1..], b, kind);
    }
  }

  /** The lines of two texts joined by a line feed are the lines of each. */
  lemma {:induction false} LinesOfJoin(a: string, b: string)
    ensures Lines(a + "\n" + b) == Lines(a) + Lines(b)
  {
    if |a| == 0 {
      assert a + "\n" + b == "\n" + b;
      assert ("\n" + b)[1..] == b;
    } else {
      assert (a + "\n" + b)[1..] == a[1..] + "\n" + b;
      LinesOfJoin(a[1..], b);
    }
  }

  /** Counting is per line: the count of two parts joined by a line feed is the sum. */
  lemma CountsOfJoin(a: string, b: string)
    ensures Containers(a + "\n" + b) == Containers(a) + Containers(b)
    ensures Volumes(a + "\n" + b) == Volumes(a) + Volumes(b)
  {
    LinesOfJoin(a, b);
    CountAppend(Lines(a), Lines(b), Service);
    CountAppend(Lines(a), Lines(b), Volume);
  }

  /** A line of either shape holds no line feed, so the text made of it is that one line. */
  lemma ShapedLineAlone(l: string, kind: Kind)
    requires IsLine(l, kind)
    ensures Lines(l) == [l]
  {
    forall i | 0 <= i < |l| ensures l[i] != '\n' {
      if 2 <= i < |l| - (if kind == Service then 1 else 4) {
        assert IsWordChar(l[i]);
      } else if i >= 2 && kind == Volume {
        assert l[i] == (": {}")[i - (|l| - 4)];
      }
    }
    NoLineFeedOneLine(l);
  }

  /** A service line is counted once, and only as a service. */
  lemma OneService(l: string)
    requires IsServiceLine(l)
    ensures Containers(l) == 1 && Volumes(l) == 0
  {
    ShapedLineAlone(l, Service);
    KindsDisjoint(l);
  }

  /** A volume line is counted once, and only as a volume. */
  lemma OneVolume(l: string)
    requires IsVolumeLine(l)
    ensures Volumes(l) == 1 && Containers(l) == 0
  {
    ShapedLineAlone(l, Volume);
    KindsDisjoint(l);
  }

  lemma {:induction false} NoLineFeedOneLine(s: string)
    requires '\n' !in s
    ensures Lines(s) == [s]
  {
    if |s| > 0 {
      assert s[0] in s;
      assert forall c :: c in s[1..] ==> c in s;
      NoLineFeedOneLine(s[1..]);
      assert s == [s[0]] + s[1..];
    }
  }
}
