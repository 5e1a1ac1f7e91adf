/** ipc.c: the client slot table and the choice of the command that a poll returns. */
module IpcServer {
  datatype Command = NoCommand | Stop | Disable | Enable

  /** What reading one client yields. */
  datatype Read = Text(text: string) | Closed | NothingYet | Broken

  // ---- Recognising a command ----

  /** The text up to its first NUL, which is where strstr stops looking. */
  function CString(s: string): (r: string)
    ensures r <= s && '\0' !in r
    ensures r == s || s[|r|] == '\0'
  {
    if s == "" || s[0] == '\0' then "" else [s[0]] + CString(s[1..])
  }

  predicate OccursAt(needle: string, s: string, i: nat) {
    i + |needle| <= |s| && s[i..i + |needle|] == needle
  }

  /** strstr, up to where the match is. */
  predicate Contains(s: string, needle: string)
    ensures Contains(s, needle) <==> exists i: nat :: OccursAt(needle, s, i)
  {
    if OccursAt(needle, s, 0) then true
    else if s == "" then false
    else
      OccursLater(s, needle);
      Contains(s[1..], needle)
  }

  lemma OccursLater(s: string, needle: string)
    requires s != "" && !OccursAt(needle, s, 0)
    ensures (exists i: nat :: OccursAt(needle, s, i)) <==> (exists i: nat :: OccursAt(needle, s[1..], i))
  {
    if i: nat :| OccursAt(needle, s, i) {
      assert s[1..][i - 1..i - 1 + |needle|] == s[i..i + |needle|];
      assert OccursAt(needle, s[1..], i - 1);
    }
    if i: nat :| OccursAt(needle, s[1..], i) {
      assert s[1..][i..i + |needle|] == s[i + 1..i + 1 + |needle|];
      assert OccursAt(needle, s, i + 1);
    }
  }

  /** One read may hold several messages; stop wins over disable, and disable over enable. */
  function Recognise(text: string): Command {
    var s := CString(text);
    if Contains(s, "\"stop\"") then Stop
    else if Contains(s, "\"disable\"") then Disable
    else if Contains(s, "\"enable\"") then Enable
    else NoCommand
  }

  /** The command that a text asks for, by what it contains up to its first NUL. */
  ghost function Asked(text: string): Command {
    var s := CString(text);
    if exists i: nat :: OccursAt("\"stop\"", s, i) then Stop
    else if exists i: nat :: OccursAt("\"disable\"", s, i) then Disable
    else if exists i: nat :: OccursAt("\"enable\"", s, i) then Enable
    else NoCommand
  }

  lemma RecogniseExact(text: string)
    ensures Recognise(text) == Asked(text)
  {
  }

  /** The message with which the menu application sends a command. */
  function Message(command: string): string {
    "{\"type\":\"" + command + "\"}\n"
  }

  /** Each of its three messages asks for its own command. */
  lemma MessagesUnderstood()
    ensures Recognise(Message("stop")) == Stop
    ensures Recognise(Message("disable")) == Disable
    ensures Recognise(Message("enable")) == Enable
  {
    StopUnderstood();
    DisableUnderstood();
    EnableUnderstood();
  }

  lemma StopUnderstood()
    ensures Recognise(Message("stop")) == Stop
  {
    hide Recognise, OccursAt, Message, CString;
    RecogniseExact(Message("stop"));
    Quoted("stop", "\"stop\"");
  }

  lemma DisableUnderstood()
    ensures Recognise(Message("disable")) == Disable
  {
    hide Recognise, OccursAt, Message, CString;
    RecogniseExact(Message("disable"));
    Quoted("disable", "\"disable\"");
    NotIn("\"stop\"", "disable");
  }

  lemma EnableUnderstood()
    ensures Recognise(Message("enable")) == Enable
  {
    hide Recognise, OccursAt, Message, CString;
    RecogniseExact(Message("enable"));
    Quoted("enable", "\"enable\"");
    NotIn("\"stop\"", "enable");
    NotIn("\"disable\"", "enable");
  }

  lemma Quoted(command: string, needle: string)
    requires command == "stop" || command == "disable" || command == "enable"
    requires needle == "\"" + command + "\""
    ensures OccursAt(needle, Message(command), 8)
    ensures CString(Message(command)) == Message(command)
  {
    var s := Message(command);
    assert s[8..8 + |command| + 2] == needle;
    assert forall j :: 0 <= j < |s| ==> s[j] != '\0';
  }

  lemma SecondAndThird(needle: string, s: string, i: nat)
    requires |needle| > 2
    ensures OccursAt(needle, s, i) ==>
              i + 2 < |s| && s[i] == needle[0] && s[i + 1] == needle[1] && s[i + 2] == needle[2]
  {
    if OccursAt(needle, s, i) {
      var t := s[i..i + |needle|];
      assert s[i] == t[0] && s[i + 1] == t[1] && s[i + 2] == t[2];
    }
  }

  lemma NotIn(needle: string, other: string)
    requires other == "disable" || other == "enable"
    requires needle == "\"stop\"" || (needle == "\"disable\"" && other == "enable")
    ensures forall i: nat :: !OccursAt(needle, Message(other), i)
  {
    hide OccursAt;
    forall i: nat ensures !OccursAt(needle, Message(other), i) {
      SecondAndThird(needle, Message(other), i);
    }
  }

  // ---- The slot table ----

  const MAX_CLIENTS := 4

  function Connected(fds: seq<int>): nat {
    if fds == [] then 0 else Connected(fds[..|fds| - 1]) + if fds[|fds| - 1] >= 0 then 1 else 0
  }

  lemma {:induction false} ConnectedUpdate(fds: seq<int>, i: nat, fd: int)
    requires i < |fds|
    ensures Connected(fds[i := fd]) == Connected(fds) - (if fds[i] >= 0 then 1 else 0) + (if fd >= 0 then 1 else 0)
  {
    var n := |fds| - 1;
    if i == n {
      assert fds[i := fd][..n] == fds[..n];
    } else {
      ConnectedUpdate(fds[..n], i, fd);
      assert fds[i := fd][..n] == fds[..n][i := fd];
    }
  }

  predicate FirstFreeSlot(fds: seq<int>, i: nat) {
    i < |fds| && fds[i] < 0 && forall j :: 0 <= j < i ==> fds[j] >= 0
  }

  /** The table after a connection attempt: a new client takes the first free slot, and is turned
      away if there is none. */
  ghost predicate Accepted(before: seq<int>, fd: int, after: seq<int>) {
    if fd < 0 || forall j :: 0 <= j < |before| ==> before[j] >= 0 then after == before
    else exists i: nat :: FirstFreeSlot(before, i) && after == before[i := fd]
  }

  /** The command a client's read amounts to. */
  function CommandOf(fd: int, r: Read): Command {
    if fd >= 0 && r.Text? then Recognise(r.text) else NoCommand
  }

  /** The command of the last slot that has one. */
  function LastCommand(fds: seq<int>, got: seq<Read>): Command
    requires |fds| == |got|
  {
    if fds == [] then NoCommand
    else
      var n := |fds| - 1;
      var c := CommandOf(fds[n], got[n]);
      if c != NoCommand then c else LastCommand(fds[..n], got[..n])
  }

  /** The command that a client's read amounts to, by what the text contains. */
  ghost function Sent(fd: int, r: Read): Command {
    if fd >= 0 && r.Text? then Asked(r.text) else NoCommand
  }

  /** Slot k is the highest whose client sent a command. */
  ghost predicate HighestCommand(fds: seq<int>, got: seq<Read>, k: int)
    requires |fds| == |got|
  {
    && 0 <= k < |fds| && Sent(fds[k], got[k]) != NoCommand
    && forall j :: k < j < |fds| ==> Sent(fds[j], got[j]) == NoCommand
  }

  /** A poll's answer is no command exactly if no client sent one, and otherwise the command of the
      client in the highest slot that sent one. */
  ghost predicate Answers(fds: seq<int>, got: seq<Read>, cmd: Command)
    requires |fds| == |got|
  {
    && (cmd == NoCommand <==> forall i :: 0 <= i < |fds| ==> Sent(fds[i], got[i]) == NoCommand)
    && forall k :: HighestCommand(fds, got, k) ==> cmd == Sent(fds[k], got[k])
  }

  lemma SentIsCommand(fd: int, r: Read)
    ensures Sent(fd, r) == CommandOf(fd, r)
  {
    if r.Text? {
      RecogniseExact(r.text);
    }
  }

  lemma {:induction false} LastCommandMeaning(fds: seq<int>, got: seq<Read>)
    requires |fds| == |got|
    ensures Answers(fds, got, LastCommand(fds, got))
  {
    hide CommandOf, Sent;
    if fds != [] {
      var n := |fds| - 1;
      LastCommandMeaning(fds[..n], got[..n]);
      assert forall i :: 0 <= i < n ==> fds[..n][i] == fds[i] && got[..n][i] == got[i];
      SentIsCommand(fds[n], got[n]);
      forall k | HighestCommand(fds, got, k)
        ensures LastCommand(fds, got) == Sent(fds[k], got[k])
      {
        assert k < n ==> HighestCommand(fds[..n], got[..n], k);
      }
    }
  }

  class Server {
    const clientFds: array<int>
    var numClients: int

    ghost predicate Valid()
      reads this, clientFds
    {
      clientFds.Length == MAX_CLIENTS && numClients == Connected(clientFds[..])
    }

    constructor ()
      ensures Valid() && fresh(clientFds) && clientFds[..] == [-1, -1, -1, -1]
    {
      clientFds := new int[MAX_CLIENTS](_ => -1);
      numClients := 0;
      new;
      NobodyConnected(clientFds[..]);
    }

    lemma {:induction false} NobodyConnected(fds: seq<int>)
      requires forall i :: 0 <= i < |fds| ==> fds[i] < 0
      ensures Connected(fds) == 0
    {
      if fds != [] {
        NobodyConnected(fds[..|fds| - 1]);
      }
    }

    method CloseClient(i: nat)
      requires Valid() && i < MAX_CLIENTS
      modifies this`numClients, clientFds
      ensures Valid()
      ensures clientFds[..] == old(clientFds[..])[i := if old(clientFds[i]) >= 0 then -1 else old(clientFds[i])]
    {
      if clientFds[i] >= 0 {
        ConnectedUpdate(clientFds[..], i, -1);
        clientFds[i] := -1;
        numClients := numClients - 1;
        assert clientFds[..] == old(clientFds[..])[i := -1];
      }
    }

    method Accept(fd: int)
      requires Valid()
      modifies this`numClients, clientFds
      ensures Valid() && Accepted(old(clientFds[..]), fd, clientFds[..])
    {
      if fd < 0 {
        return;
      }
      var i := 0;
      while i < MAX_CLIENTS && clientFds[i] >= 0
        invariant 0 <= i <= MAX_CLIENTS
        invariant forall j :: 0 <= j < i ==> clientFds[j] >= 0
        invariant clientFds[..] == old(clientFds[..]) && Valid()
      {
        i := i + 1;
      }
      if i < MAX_CLIENTS {
        ghost var before := clientFds[..];
        assert FirstFreeSlot(before, i);
        ConnectedUpdate(before, i, fd);
        clientFds[i] := fd;
        numClients := numClients + 1;
        assert clientFds[..] == before[i := fd];
      } else {
        assert forall j :: 0 <= j < |clientFds[..]| ==> clientFds[..][j] >= 0;
      }
    }

    /** ipc_server_poll: accept, then read every client. */
    method Poll(fd: int, got: seq<Read>) returns (cmd: Command, ghost accepted: seq<int>)
      requires Valid() && |got| == MAX_CLIENTS
      modifies this`numClients, clientFds
      ensures Valid()
      ensures |accepted| == MAX_CLIENTS && Accepted(old(clientFds[..]), fd, accepted)
      ensures Answers(accepted, got, cmd)
      ensures forall i :: 0 <= i < MAX_CLIENTS ==>
        clientFds[i] == if accepted[i] >= 0 && (got[i] == Closed || got[i] == Broken) then -1 else accepted[i]
    {
      hide Recognise;
      Accept(fd);
      accepted := clientFds[..];
      cmd := NoCommand;
      for i := 0 to MAX_CLIENTS
        invariant Valid()
        invariant forall j :: 0 <= j < i ==>
          clientFds[j] == if accepted[j] >= 0 && (got[j] == Closed || got[j] == Broken) then -1 else accepted[j]
        invariant forall j :: i <= j < MAX_CLIENTS ==> clientFds[j] == accepted[j]
        invariant cmd == LastCommand(accepted[..i], got[..i])
      {
        assert accepted[..i + 1][..i] == accepted[..i] && got[..i + 1][..i] == got[..i];
        if clientFds[i] < 0 {
          continue;
        }
        match got[i]
        case Text(text) =>
          var c := Recognise(text);
          if c != NoCommand {
            cmd := c;
          }
        case Closed => CloseClient(i);
        case Broken => CloseClient(i);
        case NothingYet =>
      }
      assert accepted[..MAX_CLIENTS] == accepted && got[..MAX_CLIENTS] == got;
      LastCommandMeaning(accepted, got);
    }
  }
}
