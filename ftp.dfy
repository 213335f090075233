/**
 * The FTP side of the file service. Each operation opens its own session on a
 * fresh client: connect, check the reply, log in, move to the base directory,
 * make one transfer, and in a `finally` block log out and disconnect when the
 * client is still connected.
 *
 * The server and the network are an oracle: the reply to every command is
 * given by a function of the commands already sent in the session and the
 * command itself. A reply is either the boolean the client call returned (for
 * `connect`, whether the reply code was a positive completion) or an
 * IOException.
 */
module Ftp {
  import opened Base
  import opened JavaStrings
  import Ordering

  /** The FTPClient calls FtpService makes (`enterLocalPassiveMode` is local and omitted). */
  datatype Command =
    | Connect
    | Login
    | SetBinary
    | ChangeDir(path: string)
    | MakeDir(path: string)
    | Store(name: string)
    | Retrieve(name: string)
    | Delete(name: string)
    | Logout
    | Disconnect

  /** What one call did: returned a boolean, or threw an IOException. */
  datatype Reply = Returned(ok: bool) | Threw

  /** The reply to each command, given the commands sent before it in the same session. */
  type Server = (seq<Command>, Command) -> Reply

  /** A client's observable state: the commands sent so far and `isConnected()`. */
  datatype Session = Session(log: seq<Command>, connected: bool)

  /** `isConnected()` after command c got reply r. */
  function ConnectedAfter(was: bool, c: Command, r: Reply): bool {
    match c
    case Connect => r.Returned?
    case Disconnect => false
    case _ => was
  }

  /** One call on the client: the command is logged and answered by the server. */
  function Step(server: Server, s: Session, c: Command): (Session, Reply) {
    var r := server(s.log, c);
    (Session(s.log + [c], ConnectedAfter(s.connected, c, r)), r)
  }

  /** An Apache Commons Net FTPClient, as far as the service can observe it. */
  class FtpClient {
    const server: Server
    var log: seq<Command>
    var connected: bool

    constructor (server: Server)
      ensures this.server == server && log == [] && !connected
    {
      this.server := server;
      log := [];
      connected := false;
    }

    function State(): Session
      reads this
    {
      Session(log, connected)
    }

    /** Sends c and returns the server's reply. */
    method Send(c: Command) returns (r: Reply)
      modifies this
      ensures (State(), r) == Step(server, old(State()), c)
    {
      r := server(log, c);
      connected := ConnectedAfter(connected, c, r);
      log := log + [c];
    }
  }

  // ---------------------------------------------------------------------
  // The finally block

  /**
   * The `finally` block: a connected client is logged out and then
   * disconnected. An IOException from `logout` is caught around both calls,
   * so `disconnect` is then skipped and the client stays connected.
   */
  function Close(server: Server, s: Session): (t: Session)
    ensures |t.log| >= |s.log| && t.log[..|s.log|] == s.log
    ensures !s.connected ==> t == s
    ensures s.connected ==> |t.log| > |s.log| && t.log[|s.log|] == Logout
    ensures t.connected <==> s.connected && server(s.log, Logout) == Threw
    ensures t.connected ==> t.log == s.log + [Logout]
    ensures s.connected && !t.connected ==> t.log == s.log + [Logout, Disconnect]
  {
    if !s.connected then s
    else
      var (s1, r1) := Step(server, s, Logout);
      if r1.Threw? then s1 else Step(server, s1, Disconnect).0
  }

  method Release(client: FtpClient)
    modifies client
    ensures client.State() == Close(client.server, old(client.State()))
  {
    if client.connected {
      var r := client.Send(Logout);
      if !r.Threw? {
        r := client.Send(Disconnect);
      }
    }
  }

  // ---------------------------------------------------------------------
  // createDirectoryIfNotExists

  /** The value of `currentDir` after the loop has visited the pieces dirs. */
  function CurrentDir(dirs: seq<string>): string {
    if dirs == [] then ""
    else if dirs[|dirs| - 1] == "" then CurrentDir(dirs[..|dirs| - 1])
    else CurrentDir(dirs[..|dirs| - 1]) + "/" + dirs[|dirs| - 1]
  }

  /** The directories the loop probes while visiting dirs, in order. */
  function Probes(dirs: seq<string>): seq<string> {
    if dirs == [] then []
    else if dirs[|dirs| - 1] == "" then Probes(dirs[..|dirs| - 1])
    else Probes(dirs[..|dirs| - 1]) + [CurrentDir(dirs)]
  }

  predicate IsSegment(piece: string) {
    piece != []
  }

  /** The non-empty pieces, the directory names of a path. */
  function Segments(dirs: seq<string>): seq<string> {
    Ordering.Filter(dirs, IsSegment)
  }

  /** "/" + s1 + "/" + ... + "/" + sk */
  function Rooted(segments: seq<string>): string {
    if segments == [] then ""
    else Rooted(segments[..|segments| - 1]) + "/" + segments[|segments| - 1]
  }

  /** After visiting dirs, `currentDir` is the root-anchored join of its non-empty pieces. */
  lemma {:induction false} CurrentDirIsRooted(dirs: seq<string>)
    ensures CurrentDir(dirs) == Rooted(Segments(dirs))
  {
    if dirs != [] {
      var init := dirs[..|dirs| - 1];
      var last := dirs[|dirs| - 1];
      CurrentDirIsRooted(init);
      assert dirs == init + [last];
      Ordering.FilterSnoc(init, last, IsSegment);
      var segs := Segments(dirs);
      if last != "" {
        assert segs == Segments(init) + [last];
        assert segs[..|segs| - 1] == Segments(init);
      } else {
        assert segs == Segments(init);
      }
    }
  }

  /**
   * The k-th probe is the join of the first k + 1 non-empty pieces: empty
   * pieces (leading, trailing or doubled slashes) add no probe, and each
   * probe extends the previous one by one directory.
   */
  lemma {:induction false} ProbesFollowSegments(dirs: seq<string>)
    ensures |Probes(dirs)| == |Segments(dirs)|
    ensures forall k :: 0 <= k < |Probes(dirs)| ==> Probes(dirs)[k] == Rooted(Segments(dirs)[..k + 1])
  {
    if dirs != [] {
      var init := dirs[..|dirs| - 1];
      var last := dirs[|dirs| - 1];
      ProbesFollowSegments(init);
      assert dirs == init + [last];
      Ordering.FilterSnoc(init, last, IsSegment);
      var segs := Segments(dirs);
      var ps := Probes(dirs);
      if last != "" {
        CurrentDirIsRooted(dirs);
        assert segs == Segments(init) + [last];
        assert ps == Probes(init) + [CurrentDir(dirs)];
        forall k | 0 <= k < |ps| ensures ps[k] == Rooted(segs[..k + 1]) {
          if k < |Probes(init)| {
            assert segs[..k + 1] == Segments(init)[..k + 1];
          } else {
            assert segs[..k + 1] == segs;
          }
        }
      } else {
        assert segs == Segments(init);
      }
    }
  }

  /** The probes depend only on the non-empty pieces. */
  lemma SameSegmentsSameProbes(dirs1: seq<string>, dirs2: seq<string>)
    requires Segments(dirs1) == Segments(dirs2)
    ensures Probes(dirs1) == Probes(dirs2)
    ensures CurrentDir(dirs1) == CurrentDir(dirs2)
  {
    CurrentDirIsRooted(dirs1);
    CurrentDirIsRooted(dirs2);
    ProbesFollowSegments(dirs1);
    ProbesFollowSegments(dirs2);
  }

  lemma {:induction false} ProbesOfPrefix(dirs: seq<string>, j: nat)
    requires j <= |dirs|
    ensures |Probes(dirs[..j])| <= |Probes(dirs)|
    ensures Probes(dirs[..j]) == Probes(dirs)[..|Probes(dirs[..j])|]
    decreases |dirs| - j
  {
    if j < |dirs| {
      var init := dirs[..|dirs| - 1];
      assert init[..j] == dirs[..j];
      ProbesOfPrefix(init, j);
    } else {
      assert dirs[..j] == dirs;
    }
  }

  /** Probing one directory: change into it, and only if that fails, create it. */
  function Probe(server: Server, s: Session, path: string): (Session, bool) {
    var (s1, r1) := Step(server, s, ChangeDir(path));
    if r1.Threw? then (s1, true)
    else if r1.ok then (s1, false)
    else
      var (s2, r2) := Step(server, s1, MakeDir(path));
      (s2, r2.Threw?)
  }

  /** The walk over paths; the flag is set when an IOException ended it. */
  function Walk(server: Server, s: Session, paths: seq<string>): (r: (Session, bool))
    ensures |r.0.log| >= |s.log| && r.0.log[..|s.log|] == s.log
    ensures r.0.connected == s.connected
  {
    if paths == [] then (s, false)
    else
      var (s0, threw) := Walk(server, s, paths[..|paths| - 1]);
      if threw then (s0, true)
      else
        var r := Probe(server, s0, paths[|paths| - 1]);
        assert r.0.log[..|s.log|] == s0.log[..|s.log|];
        r
  }

  /** The walk sends only change-directory and make-directory commands. */
  lemma {:induction false} WalkSendsOnlyDirectoryCommands(server: Server, s: Session, paths: seq<string>)
    ensures forall i :: |s.log| <= i < |Walk(server, s, paths).0.log| ==>
              Walk(server, s, paths).0.log[i].ChangeDir? || Walk(server, s, paths).0.log[i].MakeDir?
  {
    if paths != [] {
      var init := paths[..|paths| - 1];
      WalkSendsOnlyDirectoryCommands(server, s, init);
      var w0 := Walk(server, s, init);
      if !w0.1 {
        var added := ProbeSent(server, w0.0, paths[|paths| - 1]);
        var t := w0.0.log + added;
        assert Walk(server, s, paths).0.log == t;
        forall i | |s.log| <= i < |t| ensures t[i].ChangeDir? || t[i].MakeDir? {
          if i < |w0.0.log| {
            assert t[i] == w0.0.log[i];
          } else {
            assert t[i] == added[i - |w0.0.log|];
          }
        }
      }
    }
  }

  /** Once an exception has ended the walk, later paths change nothing. */
  lemma {:induction false} WalkStopsAtException(server: Server, s: Session, paths: seq<string>, n: nat)
    requires n <= |paths| && Walk(server, s, paths[..n]).1
    ensures Walk(server, s, paths) == Walk(server, s, paths[..n])
    decreases |paths| - n
  {
    if n < |paths| {
      var init := paths[..|paths| - 1];
      assert init[..n] == paths[..n];
      WalkStopsAtException(server, s, init, n);
    } else {
      assert paths[..n] == paths;
    }
  }

  /** The directories a command sequence changes into, in order. */
  function ChangedInto(cmds: seq<Command>): seq<string> {
    if cmds == [] then []
    else
      var c := cmds[|cmds| - 1];
      ChangedInto(cmds[..|cmds| - 1]) + (if c.ChangeDir? then [c.path] else [])
  }

  lemma {:induction false} ChangedIntoAppend(a: seq<Command>, b: seq<Command>)
    ensures ChangedInto(a + b) == ChangedInto(a) + ChangedInto(b)
    decreases |b|
  {
    if b != [] {
      assert (a + b)[..|a + b| - 1] == a + b[..|b| - 1];
      ChangedIntoAppend(a, b[..|b| - 1]);
    } else {
      assert a + b == a;
    }
  }

  /** What is changed into after position n of a log extended by added. */
  lemma ChangedIntoAfter(log: seq<Command>, added: seq<Command>, n: nat)
    requires n <= |log|
    ensures ChangedInto((log + added)[n..]) == ChangedInto(log[n..]) + ChangedInto(added)
  {
    assert (log + added)[n..] == log[n..] + added;
    ChangedIntoAppend(log[n..], added);
  }

  /** The commands one probe sends: they change into p exactly once. */
  lemma ProbeSent(server: Server, s: Session, p: string) returns (added: seq<Command>)
    ensures Probe(server, s, p).0.log == s.log + added
    ensures ChangedInto(added) == [p]
    ensures server(s.log, ChangeDir(p)) == Returned(false) ==> added == [ChangeDir(p), MakeDir(p)]
    ensures server(s.log, ChangeDir(p)) != Returned(false) ==> added == [ChangeDir(p)]
  {
    if server(s.log, ChangeDir(p)) == Returned(false) {
      added := [ChangeDir(p), MakeDir(p)];
      assert added[..1] == [ChangeDir(p)];
    } else {
      added := [ChangeDir(p)];
    }
    assert ChangedInto([ChangeDir(p)]) == [p];
  }

  /**
   * Only an exception stops the walk: when none is thrown, every path is
   * changed into, in order, whatever `makeDirectory` returned.
   */
  lemma {:induction false} WalkVisitsEveryPath(server: Server, s: Session, paths: seq<string>)
    ensures !Walk(server, s, paths).1 ==> ChangedInto(Walk(server, s, paths).0.log[|s.log|..]) == paths
  {
    if paths != [] {
      var init := paths[..|paths| - 1];
      var p := paths[|paths| - 1];
      WalkVisitsEveryPath(server, s, init);
      var w0 := Walk(server, s, init);
      if !w0.1 {
        var added := ProbeSent(server, w0.0, p);
        ChangedIntoAfter(w0.0.log, added, |s.log|);
        assert paths == init + [p];
      }
    }
  }

  /** A probe reports an exception only when the last command it sent threw. */
  lemma ProbeThrowsOnlyOnException(server: Server, s0: Session, p: string)
    ensures var t := Probe(server, s0, p).0;
            Probe(server, s0, p).1 ==> |t.log| > |s0.log| && server(t.log[..|t.log| - 1], t.log[|t.log| - 1]) == Threw
  {
    var l1 := s0.log + [ChangeDir(p)];
    if server(s0.log, ChangeDir(p)) == Returned(false) {
      assert Probe(server, s0, p).0.log == l1 + [MakeDir(p)];
      assert (l1 + [MakeDir(p)])[..|l1|] == l1;
    } else {
      assert Probe(server, s0, p).0.log == l1;
      assert l1[..|s0.log|] == s0.log;
    }
  }

  /** When the walk reports an exception, it was the reply to the last command sent. */
  lemma {:induction false} WalkThrowsOnlyOnException(server: Server, s: Session, paths: seq<string>)
    ensures var t := Walk(server, s, paths).0;
            Walk(server, s, paths).1 ==> |t.log| > |s.log| && server(t.log[..|t.log| - 1], t.log[|t.log| - 1]) == Threw
  {
    if paths != [] {
      var init := paths[..|paths| - 1];
      var p := paths[|paths| - 1];
      WalkThrowsOnlyOnException(server, s, init);
      var w0 := Walk(server, s, init);
      if !w0.1 {
        ProbeThrowsOnlyOnException(server, w0.0, p);
      }
    }
  }

  /**
   * `makeDirectory(p)` is sent only right after `changeWorkingDirectory(p)`
   * returned false, and such a failed change is always followed by it.
   */
  predicate MakeDirOnlyAfterFailedChange(server: Server, log: seq<Command>, from: nat) {
    && (forall i :: from <= i < |log| && log[i].MakeDir? ==>
          from < i && log[i - 1] == ChangeDir(log[i].path)
          && server(log[..i - 1], log[i - 1]) == Returned(false))
    && (forall i :: from <= i < |log| && log[i].ChangeDir? && server(log[..i], log[i]) == Returned(false) ==>
          i + 1 < |log| && log[i + 1] == MakeDir(log[i].path))
  }

  /** One probe keeps the property for everything sent since from. */
  lemma ProbeCreatesOnlyMissing(server: Server, s0: Session, p: string, from: nat)
    requires from <= |s0.log| && MakeDirOnlyAfterFailedChange(server, s0.log, from)
    ensures MakeDirOnlyAfterFailedChange(server, Probe(server, s0, p).0.log, from)
  {
    var added := ProbeSent(server, s0, p);
    var t := Probe(server, s0, p).0.log;
    var n := |s0.log|;
    assert t == s0.log + added;
    var failed := server(s0.log, ChangeDir(p)) == Returned(false);
    forall i | from <= i < |t| && t[i].MakeDir?
      ensures from < i && t[i - 1] == ChangeDir(t[i].path) && server(t[..i - 1], t[i - 1]) == Returned(false)
    {
      if i < n {
        assert t[i] == s0.log[i] && t[i - 1] == s0.log[i - 1];
        assert t[..i - 1] == s0.log[..i - 1];
      } else {
        assert i == n + 1 && added == [ChangeDir(p), MakeDir(p)];
        assert t[..n] == s0.log;
      }
    }
    forall i | from <= i < |t| && t[i].ChangeDir? && server(t[..i], t[i]) == Returned(false)
      ensures i + 1 < |t| && t[i + 1] == MakeDir(t[i].path)
    {
      if i < n {
        assert t[..i] == s0.log[..i] && t[i] == s0.log[i];
        assert i + 1 < n;
        assert t[i + 1] == s0.log[i + 1];
      } else {
        assert i == n && t[..n] == s0.log && t[n] == ChangeDir(p);
        assert failed;
      }
    }
  }

  lemma {:induction false} WalkCreatesOnlyMissing(server: Server, s: Session, paths: seq<string>)
    ensures MakeDirOnlyAfterFailedChange(server, Walk(server, s, paths).0.log, |s.log|)
  {
    if paths != [] {
      var init := paths[..|paths| - 1];
      WalkCreatesOnlyMissing(server, s, init);
      var w0 := Walk(server, s, init);
      if !w0.1 {
        ProbeCreatesOnlyMissing(server, w0.0, paths[|paths| - 1], |s.log|);
      }
    }
  }

  /**
   * `createDirectoryIfNotExists`: split the path on '/', skip empty pieces,
   * extend `currentDir` by one directory per piece and probe it.
   */
  method CreateDirectoryIfNotExists(client: FtpClient, dirPath: string) returns (threw: bool)
    modifies client
    ensures (client.State(), threw) == Walk(client.server, old(client.State()), Probes(Split(dirPath, '/')))
  {
    var dirs := Split(dirPath, '/');
    var currentDir := "";
    ghost var start := client.State();
    for i := 0 to |dirs|
      invariant currentDir == CurrentDir(dirs[..i])
      invariant (client.State(), false) == Walk(client.server, start, Probes(dirs[..i]))
    {
      assert dirs[..i + 1][..i] == dirs[..i];
      if dirs[i] != "" {
        currentDir := currentDir + "/" + dirs[i];
        var r := client.Send(ChangeDir(currentDir));
        var failed := r.Threw?;
        if !failed && !r.ok {
          r := client.Send(MakeDir(currentDir));
          failed := r.Threw?;
        }
        if failed {
          ProbesOfPrefix(dirs, i + 1);
          WalkStopsAtException(client.server, start, Probes(dirs), |Probes(dirs[..i + 1])|);
          assert dirs[..|dirs|] == dirs;
          return true;
        }
      }
    }
    assert dirs[..|dirs|] == dirs;
    return false;
  }

  // ---------------------------------------------------------------------
  // The three operations

  /** Connect, check the reply code, log in, set binary mode; the flag says the session may go on. */
  function Open(server: Server): (r: (Session, bool))
    ensures r.1 ==> r.0 == Session([Connect, Login, SetBinary], true)
    ensures 1 <= |r.0.log| <= 3 && r.0.log == [Connect, Login, SetBinary][..|r.0.log|]
    ensures r.1 <==> server([], Connect) == Returned(true) && server([Connect], Login) == Returned(true)
                     && !server([Connect, Login], SetBinary).Threw?
  {
    var (s1, r1) := Step(server, Session([], false), Connect);
    assert s1.log == [Connect];
    if r1 != Returned(true) then (s1, false)
    else
      var (s2, r2) := Step(server, s1, Login);
      assert s2.log == [Connect, Login];
      if r2 != Returned(true) then (s2, false)
      else
        var (s3, r3) := Step(server, s2, SetBinary);
        (s3, !r3.Threw?)
  }

  /** `uploadFile` up to the finally block: the session and the result. */
  function UploadBody(server: Server, basePath: string, fileName: string): (Session, bool) {
    var (s3, ready) := Open(server);
    if !ready then (s3, false)
    else
      var (s4, threw) := Walk(server, s3, Probes(Split(basePath, '/')));
      if threw then (s4, false)
      else
        var (s5, r5) := Step(server, s4, ChangeDir(basePath));
        if r5.Threw? then (s5, false)
        else
          var (s6, r6) := Step(server, s5, Store(fileName));
          (s6, r6 == Returned(true))
  }

  /** `downloadFile` up to the finally block: the session and the bytes, or null. */
  function DownloadBody(server: Server, content: seq<byte>, basePath: string, fileName: string): (Session, Option<seq<byte>>) {
    var (s3, ready) := Open(server);
    if !ready then (s3, None)
    else
      var (s4, r4) := Step(server, s3, ChangeDir(basePath));
      if r4.Threw? then (s4, None)
      else
        var (s5, r5) := Step(server, s4, Retrieve(fileName));
        (s5, if r5 == Returned(true) then Some(content) else None)
  }

  /** `deleteFile` up to the finally block: neither the reply code nor the login result is checked. */
  function DeleteBody(server: Server, basePath: string, fileName: string): (Session, bool) {
    var (s1, r1) := Step(server, Session([], false), Connect);
    if r1.Threw? then (s1, false)
    else
      var (s2, r2) := Step(server, s1, Login);
      if r2.Threw? then (s2, false)
      else
        var (s3, r3) := Step(server, s2, ChangeDir(basePath));
        if r3.Threw? then (s3, false)
        else
          var (s4, r4) := Step(server, s3, Delete(fileName));
          (s4, r4 == Returned(true))
  }

  /** `uploadFile`: the result and the client's state after the finally block. */
  function UploadSession(server: Server, basePath: string, fileName: string): (bool, Session) {
    var (body, ok) := UploadBody(server, basePath, fileName);
    (ok, Close(server, body))
  }

  /** `downloadFile`: the bytes (or null) and the client's state after the finally block. */
  function DownloadSession(server: Server, content: seq<byte>, basePath: string, fileName: string): (Option<seq<byte>>, Session) {
    var (body, bytes) := DownloadBody(server, content, basePath, fileName);
    (bytes, Close(server, body))
  }

  /** `deleteFile`: the result and the client's state after the finally block. */
  function DeleteSession(server: Server, basePath: string, fileName: string): (bool, Session) {
    var (body, ok) := DeleteBody(server, basePath, fileName);
    (ok, Close(server, body))
  }

  /** A command that moves a file: store, retrieve or delete. */
  predicate IsTransfer(c: Command) {
    c.Store? || c.Retrieve? || c.Delete?
  }

  /** The commands the finally block adds: logout and disconnect only. */
  lemma CloseAdds(server: Server, s: Session) returns (tail: seq<Command>)
    ensures Close(server, s).log == s.log + tail
    ensures forall i :: 0 <= i < |tail| ==> tail[i] == Logout || tail[i] == Disconnect
  {
    tail := Close(server, s).log[|s.log|..];
    assert Close(server, s).log == s.log + tail;
  }

  /**
   * A log made of commands that move no file, at most one more command, and
   * then the finally block's commands holds a transfer only at that one place.
   */
  lemma TransferAtMostOnce(pre: seq<Command>, sent: seq<Command>, tail: seq<Command>)
    requires forall i :: 0 <= i < |pre| ==> !IsTransfer(pre[i])
    requires |sent| <= 1
    requires forall i :: 0 <= i < |tail| ==> tail[i] == Logout || tail[i] == Disconnect
    ensures var log := pre + sent + tail;
            && log[..|pre|] == pre
            && (sent != [] ==> log[|pre|] == sent[0])
            && forall i :: 0 <= i < |log| && IsTransfer(log[i]) ==> i == |pre| && sent != [] && log[i] == sent[0]
  {
    var log := pre + sent + tail;
    assert forall i :: 0 <= i < |pre| ==> log[i] == pre[i];
    assert forall i :: |pre| + |sent| <= i < |log| ==> log[i] == tail[i - |pre| - |sent|];
  }

  /**
   * The transfer an operation makes, in the log before the finally block:
   * pre is what precedes it, and when it is sent it is sent once, last.
   */
  lemma UploadBodyShape(server: Server, basePath: string, fileName: string) returns (pre: seq<Command>)
    ensures var (body, ok) := UploadBody(server, basePath, fileName);
            && (forall i :: 0 <= i < |pre| ==> !IsTransfer(pre[i]))
            && (body.log == pre ==> !ok)
            && (body.log != pre ==>
                  && body.log == pre + [Store(fileName)]
                  && ok == (server(pre, Store(fileName)) == Returned(true))
                  && |pre| >= 4 && pre[..3] == [Connect, Login, SetBinary] && pre[|pre| - 1] == ChangeDir(basePath)
                  && server([], Connect) == Returned(true) && server([Connect], Login) == Returned(true))
  {
    var o := Open(server);
    var s3 := o.0;
    assert forall i :: 0 <= i < |s3.log| ==> !IsTransfer(s3.log[i]) by {
      assert forall i :: 0 <= i < |s3.log| ==> s3.log[i] == [Connect, Login, SetBinary][i];
    }
    if !o.1 {
      pre := s3.log;
      assert UploadBody(server, basePath, fileName) == (s3, false);
    } else {
      var paths := Probes(Split(basePath, '/'));
      var w := Walk(server, s3, paths);
      WalkSendsOnlyDirectoryCommands(server, s3, paths);
      NoTransferAfterOpen(s3.log, w.0.log);
      if w.1 {
        pre := w.0.log;
        assert UploadBody(server, basePath, fileName) == (w.0, false);
      } else {
        pre := w.0.log + [ChangeDir(basePath)];
        assert forall i :: 0 <= i < |w.0.log| ==> pre[i] == w.0.log[i];
        assert pre[..3] == w.0.log[..3];
        var (s5, r5) := Step(server, w.0, ChangeDir(basePath));
        assert s5.log == pre;
        if r5.Threw? {
          assert UploadBody(server, basePath, fileName) == (s5, false);
        } else {
          var (s6, r6) := Step(server, s5, Store(fileName));
          assert UploadBody(server, basePath, fileName) == (s6, r6 == Returned(true));
        }
      }
    }
  }

  /** A log that begins with commands moving no file and goes on with directory commands moves no file. */
  lemma NoTransferAfterOpen(open: seq<Command>, log: seq<Command>)
    requires |open| <= |log| && log[..|open|] == open
    requires forall i :: 0 <= i < |open| ==> !IsTransfer(open[i])
    requires forall i :: |open| <= i < |log| ==> log[i].ChangeDir? || log[i].MakeDir?
    ensures forall i :: 0 <= i < |log| ==> !IsTransfer(log[i])
  {
    assert forall i :: 0 <= i < |open| ==> log[i] == open[i];
  }

  /**
   * `uploadFile` sends `storeFile` only after a positive connect reply and a
   * successful login, only for fileName, right after changing into the base
   * directory (whatever that change returned), and returns true exactly when
   * `storeFile` returned true.
   */
  lemma {:induction false} UploadSucceedsOnlyByStore(server: Server, basePath: string, fileName: string)
    ensures var (ok, t) := UploadSession(server, basePath, fileName);
            && (forall i :: 0 <= i < |t.log| && IsTransfer(t.log[i]) ==>
                  && t.log[i] == Store(fileName) && 4 <= i && t.log[..3] == [Connect, Login, SetBinary]
                  && t.log[i - 1] == ChangeDir(basePath)
                  && server([], Connect) == Returned(true) && server([Connect], Login) == Returned(true))
            && (ok <==> exists i :: 0 <= i < |t.log| && t.log[i] == Store(fileName)
                                    && server(t.log[..i], Store(fileName)) == Returned(true))
  {
    var pre := UploadBodyShape(server, basePath, fileName);
    var body := UploadBody(server, basePath, fileName).0;
    var tail := CloseAdds(server, body);
    var t := Close(server, body);
    var n := |pre|;
    var sent := if body.log == pre then [] else [Store(fileName)];
    assert body.log == pre + sent;
    TransferAtMostOnce(pre, sent, tail);
    assert t.log == pre + sent + tail;
    if sent != [] {
      assert t.log[..3] == pre[..3] by {
        assert t.log[..n] == pre;
      }
      assert t.log[n - 1] == pre[n - 1];
    }
  }

  lemma DownloadBodyShape(server: Server, content: seq<byte>, basePath: string, fileName: string) returns (pre: seq<Command>)
    ensures var (body, bytes) := DownloadBody(server, content, basePath, fileName);
            && (forall i :: 0 <= i < |pre| ==> !IsTransfer(pre[i]))
            && (body.log == pre ==> bytes == None)
            && (body.log != pre ==>
                  && body.log == pre + [Retrieve(fileName)]
                  && bytes == (if server(pre, Retrieve(fileName)) == Returned(true) then Some(content) else None)
                  && pre == [Connect, Login, SetBinary, ChangeDir(basePath)]
                  && server([], Connect) == Returned(true) && server([Connect], Login) == Returned(true))
  {
    pre := DownloadBody(server, content, basePath, fileName).0.log;
    var (s3, ready) := Open(server);
    if ready && !server(s3.log, ChangeDir(basePath)).Threw? {
      pre := s3.log + [ChangeDir(basePath)];
    }
  }

  /**
   * `downloadFile` sends `retrieveFile` only after a positive connect reply
   * and a successful login, only for fileName, and returns the bytes the
   * server sent exactly when `retrieveFile` returned true; otherwise null.
   */
  lemma {:induction false} DownloadReturnsRetrievedBytes(server: Server, content: seq<byte>, basePath: string, fileName: string)
    ensures var (bytes, t) := DownloadSession(server, content, basePath, fileName);
            && (forall i :: 0 <= i < |t.log| && IsTransfer(t.log[i]) ==>
                  && i == 4 && t.log[..5] == [Connect, Login, SetBinary, ChangeDir(basePath), Retrieve(fileName)]
                  && server([], Connect) == Returned(true) && server([Connect], Login) == Returned(true))
            && (bytes == None || bytes == Some(content))
            && (bytes == Some(content) <==> |t.log| > 4 && t.log[4] == Retrieve(fileName)
                                             && server(t.log[..4], Retrieve(fileName)) == Returned(true))
  {
    var pre := DownloadBodyShape(server, content, basePath, fileName);
    var body := DownloadBody(server, content, basePath, fileName).0;
    var tail := CloseAdds(server, body);
    var t := Close(server, body);
    var sent := if body.log == pre then [] else [Retrieve(fileName)];
    assert body.log == pre + sent;
    TransferAtMostOnce(pre, sent, tail);
    assert t.log == pre + sent + tail;
    if sent != [] {
      assert t.log[..5] == pre + sent;
    }
  }

  /**
   * `deleteFile` checks neither the connect reply code nor the login result:
   * when no call throws before it, `deleteFile` is sent as the fourth command
   * whatever those returned, and its reply is the result.
   */
  lemma DeleteIgnoresReplyAndLogin(server: Server, basePath: string, fileName: string)
    requires !server([], Connect).Threw? && !server([Connect], Login).Threw?
    requires !server([Connect, Login], ChangeDir(basePath)).Threw?
    ensures var (ok, t) := DeleteSession(server, basePath, fileName);
            && |t.log| >= 4 && t.log[..4] == [Connect, Login, ChangeDir(basePath), Delete(fileName)]
            && (ok <==> server([Connect, Login, ChangeDir(basePath)], Delete(fileName)) == Returned(true))
  {
    var (s1, _) := Step(server, Session([], false), Connect);
    assert s1.log == [Connect];
    var (s2, _) := Step(server, s1, Login);
    assert s2.log == [Connect, Login];
    var (s3, _) := Step(server, s2, ChangeDir(basePath));
    assert s3.log == [Connect, Login, ChangeDir(basePath)];
    var body := DeleteBody(server, basePath, fileName).0;
    assert body.log == [Connect, Login, ChangeDir(basePath), Delete(fileName)];
    var tail := CloseAdds(server, body);
    assert Close(server, body).log[..4] == body.log;
  }

  /** When a call before it throws, `deleteFile` is not sent and the result is false. */
  lemma DeleteFailsWithoutDelete(server: Server, basePath: string, fileName: string)
    requires server([], Connect).Threw? || server([Connect], Login).Threw?
             || server([Connect, Login], ChangeDir(basePath)).Threw?
    ensures var (ok, t) := DeleteSession(server, basePath, fileName);
            !ok && forall i :: 0 <= i < |t.log| ==> !IsTransfer(t.log[i])
  {
    var (s1, _) := Step(server, Session([], false), Connect);
    assert s1.log == [Connect];
    var (s2, _) := Step(server, s1, Login);
    assert s2.log == [Connect, Login];
    var body := DeleteBody(server, basePath, fileName).0;
    assert |body.log| <= 3 && body.log == [Connect, Login, ChangeDir(basePath)][..|body.log|];
    assert forall i :: 0 <= i < |body.log| ==> !IsTransfer(body.log[i]) by {
      assert forall i :: 0 <= i < |body.log| ==> body.log[i] == [Connect, Login, ChangeDir(basePath)][i];
    }
    var tail := CloseAdds(server, body);
    TransferAtMostOnce(body.log, [], tail);
    assert Close(server, body).log == body.log + [] + tail;
  }

  /** Spring's FtpService: the base path comes from configuration; host, port and credentials are the oracle's. */
  class FtpService {
    const basePath: string

    constructor (basePath: string)
      ensures this.basePath == basePath
    {
      this.basePath := basePath;
    }

    /**
     * `uploadFile`: stores the payload under fileName in the base directory;
     * returns the result and the client's final state.
     */
    method UploadFile(server: Server, fileName: string) returns (ok: bool, session: Session)
      ensures (ok, session) == UploadSession(server, basePath, fileName)
    {
      var client := new FtpClient(server);
      ok := false;
      label transfer: {
        var r := client.Send(Connect);
        if r != Returned(true) { break transfer; }
        r := client.Send(Login);
        if r != Returned(true) { break transfer; }
        r := client.Send(SetBinary);
        if r.Threw? { break transfer; }
        var threw := CreateDirectoryIfNotExists(client, basePath);
        if threw { break transfer; }
        r := client.Send(ChangeDir(basePath));
        if r.Threw? { break transfer; }
        r := client.Send(Store(fileName));
        ok := r == Returned(true);
      }
      Release(client);
      session := client.State();
    }

    /** `downloadFile`: the bytes retrieved for fileName, or None (null). */
    method DownloadFile(server: Server, content: seq<byte>, fileName: string) returns (bytes: Option<seq<byte>>, session: Session)
      ensures (bytes, session) == DownloadSession(server, content, basePath, fileName)
    {
      var client := new FtpClient(server);
      bytes := None;
      label transfer: {
        var r := client.Send(Connect);
        if r != Returned(true) { break transfer; }
        r := client.Send(Login);
        if r != Returned(true) { break transfer; }
        r := client.Send(SetBinary);
        if r.Threw? { break transfer; }
        r := client.Send(ChangeDir(basePath));
        if r.Threw? { break transfer; }
        r := client.Send(Retrieve(fileName));
        if r == Returned(true) {
          bytes := Some(content);
        }
      }
      Release(client);
      session := client.State();
    }

    /** `deleteFile`: the result of the remote delete, false on any exception. */
    method DeleteFile(server: Server, fileName: string) returns (ok: bool, session: Session)
      ensures (ok, session) == DeleteSession(server, basePath, fileName)
    {
      var client := new FtpClient(server);
      ok := false;
      label transfer: {
        var r := client.Send(Connect);
        if r.Threw? { break transfer; }
        r := client.Send(Login);
        if r.Threw? { break transfer; }
        r := client.Send(ChangeDir(basePath));
        if r.Threw? { break transfer; }
        r := client.Send(Delete(fileName));
        ok := r == Returned(true);
      }
      Release(client);
      session := client.State();
    }
  }
}
