/**
 * The hosts-file step of the install command: the host `www.<server>` is looked up with
 * `preg_match_all("/www.{$serverName}/i")`, where each `.` matches any character but a line feed,
 * and, when absent and the user agrees, two lines are appended to the file.
 */
module Hosts {
  import opened Text

  /** One pattern character against one text character. */
  predicate CharMatches(pc: char, c: char) {
    if pc == '.' then c != '\n' else Lower(c) == Lower(pc)
  }

  predicate HostAt(s: string, j: nat, p: string) {
    j + |p| <= |s| && forall i :: 0 <= i < |p| ==> CharMatches(p[i], s[j + i])
  }

  /** The pattern matches somewhere at or after `from`. */
  function Occurs(s: string, p: string, from: nat): (r: bool)
    decreases |s| + 1 - from
    ensures r <==> exists j :: from <= j && HostAt(s, j, p)
  {
    if from + |p| > |s| then false
    else HostAt(s, from, p) || Occurs(s, p, from + 1)
  }

  /** The host name as the install command spells it. */
  function Host(server: string): string {
    "www." + server
  }

  /** The lines appended for a missing host. */
  function HostEntry(appName: string, server: string): string {
    "# Added by " + appName + "\n" + "127.0.0.1   " + Host(server) + "\n"
  }

  /** The hosts text after `setupHost`: the entry appended when the host is absent and the
      user confirms. */
  function WithHost(hosts: string, appName: string, server: string, confirm: bool): string {
    if !Occurs(hosts, Host(server), 0) && confirm then hosts + HostEntry(appName, server) else hosts
  }

  /** A pattern matches its own text, wherever that text is placed. */
  lemma MatchesItself(a: string, p: string, b: string)
    ensures HostAt(a + p + b, |a|, p)
  {
    forall i | 0 <= i < |p| ensures CharMatches(p[i], (a + p + b)[|a| + i]) {
      assert (a + p + b)[|a| + i] == p[i];
    }
  }

  /** `setupHost` of the install command, on the text of the hosts file: appends the entry when
      the host is absent and the user confirms; the old text is always kept as a prefix. */
  method AppendHost(hosts: string, server: string, appName: string, confirm: bool) returns (newHosts: string, added: bool)
    ensures added <==> !Occurs(hosts, Host(server), 0) && confirm
    ensures newHosts == WithHost(hosts, appName, server, confirm)
    ensures added ==> newHosts == hosts + HostEntry(appName, server)
    ensures hosts <= newHosts
    ensures Occurs(newHosts, Host(server), 0) <==> Occurs(hosts, Host(server), 0) || confirm
  {
    newHosts := hosts;
    added := false;
    var host := Host(server);
    if !Occurs(hosts, host, 0) && confirm {
      newHosts := newHosts + "# Added by " + appName + "\n";
      newHosts := newHosts + "127.0.0.1   " + host + "\n";
      added := true;
      assert newHosts == hosts + HostEntry(appName, server);
      EntryAddsHost(hosts, appName, server);
    }
  }

  /** Once the entry is appended, the host is found. */
  lemma EntryAddsHost(hosts: string, appName: string, server: string)
    ensures Occurs(hosts + HostEntry(appName, server), Host(server), 0)
  {
    var before := hosts + "# Added by " + appName + "\n" + "127.0.0.1   ";
    assert hosts + HostEntry(appName, server) == before + Host(server) + "\n";
    MatchesItself(before, Host(server), "\n");
  }
}
