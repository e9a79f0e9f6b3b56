/** Lines of /etc/resolv.conf that kt comments out, adds, and restores. */
module ResolvConf {
  import opened Text

  const FIELD_NAMESERVER := "nameserver"

  function CommentKtAdded(): string { " # Added by KtConnect" }

  function CommentKtRemoved(): string { " # Removed by KtConnect" }

  predicate IsNameserver(line: string) {
    HasPrefix(line, FIELD_NAMESERVER)
  }

  /** The address, without the port. */
  function Ip(dnsServer: string): string {
    Split(dnsServer, ':')[0]
  }

  predicate Names(line: string, dnsServer: string) {
    HasPrefix(line, FIELD_NAMESERVER + " " + Ip(dnsServer) + " ")
  }

  function AddedLine(dnsServer: string): string {
    FIELD_NAMESERVER + " " + Ip(dnsServer) + CommentKtAdded()
  }

  function CommentedOut(line: string): string {
    "#" + line + CommentKtRemoved()
  }

  function TrimSuffix(line: string, suffix: string): string {
    if HasSuffix(line, suffix) then line[..|line| - |suffix|] else line
  }

  function TrimPrefix(line: string, prefix: string): string {
    if HasPrefix(line, prefix) then line[|prefix|..] else line
  }

  function Commented(lines: seq<string>): seq<string> {
    if lines == [] then []
    else
      var n := |lines| - 1;
      Commented(lines[..n]) + [if IsNameserver(lines[n]) then CommentedOut(lines[n]) else lines[n]]
  }

  function Setup(lines: seq<string>, dnsServer: string): seq<string> {
    if exists line | line in lines :: Names(line, dnsServer) then lines else Commented(lines) + [AddedLine(dnsServer)]
  }

  function RestoredLine(line: string): seq<string> {
    if HasSuffix(line, CommentKtRemoved()) then [TrimPrefix(TrimSuffix(line, CommentKtRemoved()), "#")]
    else if HasSuffix(line, CommentKtAdded()) then []
    else [line]
  }

  function Restore(lines: seq<string>): seq<string> {
    if lines == [] then [] else Restore(lines[..|lines| - 1]) + RestoredLine(lines[|lines| - 1])
  }

  lemma RestoreNext(lines: seq<string>, i: nat)
    requires i < |lines|
    ensures Restore(lines[..i + 1]) == Restore(lines[..i]) + RestoredLine(lines[i])
  {
    hide RestoredLine;
    assert lines[..i + 1][..i] == lines[..i];
  }

  lemma CommentedNext(lines: seq<string>, i: nat)
    requires i < |lines|
    ensures Commented(lines[..i + 1]) ==
            Commented(lines[..i]) + [if IsNameserver(lines[i]) then CommentedOut(lines[i]) else lines[i]]
  {
    hide IsNameserver, CommentedOut;
    assert lines[..i + 1][..i] == lines[..i];
  }

  class ResolvConfFile {
    var lines: seq<string>

    method SetupResolvConf(dnsServer: string)
      modifies this
      ensures lines == Setup(old(lines), dnsServer)
    {
      var buf: seq<string> := [];
      var nameserverIp := Split(dnsServer, ':')[0];
      var sample := FIELD_NAMESERVER + " " + nameserverIp + " ";
      assert buf == Commented(lines[..0]);
      hide Commented, Split, HasPrefix;
      for i := 0 to |lines|
        invariant lines == old(lines) && buf == Commented(lines[..i])
        invariant forall line | line in lines[..i] :: !Names(line, dnsServer)
      {
        var line := lines[i];
        CommentedNext(lines, i);
        assert lines[..i + 1] == lines[..i] + [line];
        if HasPrefix(line, sample) {
          assert line in lines && Names(line, dnsServer);
          return;
        } else if HasPrefix(line, FIELD_NAMESERVER) {
          buf := buf + ["#" + line + CommentKtRemoved()];
        } else {
          buf := buf + [line];
        }
      }
      assert lines[..|lines|] == lines;
      lines := buf + [FIELD_NAMESERVER + " " + nameserverIp + CommentKtAdded()];
    }

    method RestoreResolvConf()
      modifies this
      ensures lines == Restore(old(lines))
    {
      var buf: seq<string> := [];
      assert buf == Restore(lines[..0]);
      hide Restore, HasSuffix, TrimSuffix, TrimPrefix, CommentKtAdded, CommentKtRemoved;
      for i := 0 to |lines|
        invariant lines == old(lines) && buf == Restore(lines[..i])
      {
        var line := lines[i];
        RestoreNext(lines, i);
        if HasSuffix(line, CommentKtRemoved()) {
          line := TrimSuffix(line, CommentKtRemoved());
          line := TrimPrefix(line, "#");
          buf := buf + [line];
        } else if !HasSuffix(line, CommentKtAdded()) {
          buf := buf + [line];
        }
      }
      assert lines[..|lines|] == lines;
      lines := buf;
    }
  }
}
