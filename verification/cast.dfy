/** The fan-out of the host server (bcaster lisa.c, main.c): a packet goes to every client but the one it came
    from, which is found in the field that sending itself overwrites. */
module Cast {
  import opened Codec
  import Host

  datatype Sent = Sent(fd: nat, msg: seq<Byte>)

  /** `msg` to all clients but `skip`, in the order of the client table. */
  function Fanout(fds: seq<nat>, skip: nat, msg: seq<Byte>): seq<Sent> {
    if fds == [] then []
    else Fanout(fds[..|fds| - 1], skip, msg)
         + if fds[|fds| - 1] == skip then [] else [Sent(fds[|fds| - 1], msg)]
  }

  /** The client that the field names after a cast: the last one that was sent to. */
  function Current(fds: seq<nat>, skip: nat): nat {
    if fds == [] then skip
    else if fds[|fds| - 1] == skip then Current(fds[..|fds| - 1], skip)
    else fds[|fds| - 1]
  }

  /** Casting several packets in a row as written, with `current` in the field at the start. */
  function CastAll(fds: seq<nat>, current: nat, msgs: seq<seq<Byte>>): seq<Sent>
    decreases |msgs|
  {
    if msgs == [] then []
    else Fanout(fds, current, msgs[0]) + CastAll(fds, Current(fds, current), msgs[1..])
  }

  /** As intended: no packet goes back to `origin`. */
  function Broadcast(fds: seq<nat>, origin: nat, msgs: seq<seq<Byte>>): seq<Sent> {
    if msgs == [] then [] else Fanout(fds, origin, msgs[0]) + Broadcast(fds, origin, msgs[1..])
  }

  /** The clients have different descriptors. */
  predicate Distinct(fds: seq<nat>) {
    forall i, j :: 0 <= i < j < |fds| ==> fds[i] != fds[j]
  }

  /** Everyone but `skip` gets the packet, once. */
  lemma {:induction false} FanoutReaches(fds: seq<nat>, skip: nat, msg: seq<Byte>)
    requires Distinct(fds)
    ensures |Fanout(fds, skip, msg)| == |fds| - if skip in fds then 1 else 0
    ensures forall s: Sent :: s in Fanout(fds, skip, msg) <==> s.msg == msg && s.fd in fds && s.fd != skip
  {
    if fds != [] {
      FanoutReaches(fds[..|fds| - 1], skip, msg);
      assert fds == fds[..|fds| - 1] + [fds[|fds| - 1]];
    }
  }

  lemma {:induction false} CurrentIsOther(fds: seq<nat>, skip: nat)
    requires exists i :: 0 <= i < |fds| && fds[i] != skip
    ensures Current(fds, skip) in fds && Current(fds, skip) != skip
  {
    if fds[|fds| - 1] == skip {
      var i :| 0 <= i < |fds| && fds[i] != skip;
      assert fds[..|fds| - 1][i] == fds[i];
      CurrentIsOther(fds[..|fds| - 1], skip);
    }
  }

  /** It is the last one in the table that is not `skip`: that one the next packet misses. */
  lemma {:induction false} CurrentIsLast(fds: seq<nat>, skip: nat, i: nat)
    requires i < |fds| && fds[i] != skip && forall j :: i < j < |fds| ==> fds[j] == skip
    ensures Current(fds, skip) == fds[i]
  {
    if i < |fds| - 1 {
      CurrentIsLast(fds[..|fds| - 1], skip, i);
    }
  }

  /** The copies go out in the order of the table, that of the client at `k` being left out. */
  lemma {:induction false} FanoutInOrder(fds: seq<nat>, k: nat, msg: seq<Byte>)
    requires Distinct(fds) && k < |fds|
    ensures Fanout(fds, fds[k], msg) == Copies(fds[..k] + fds[k + 1..], msg)
  {
    var n := |fds| - 1;
    if k < n {
      FanoutInOrder(fds[..n], k, msg);
      var others := fds[..n][..k] + fds[..n][k + 1..];
      assert fds[..k] + fds[k + 1..] == others + [fds[n]];
      assert Copies(others + [fds[n]], msg) == Copies(others, msg) + [Sent(fds[n], msg)];
    } else {
      FanoutAll(fds[..n], fds[n], msg);
      assert fds[..k] + fds[k + 1..] == fds[..n];
    }
  }

  function Copies(fds: seq<nat>, msg: seq<Byte>): seq<Sent> {
    seq(|fds|, i requires 0 <= i < |fds| => Sent(fds[i], msg))
  }

  lemma {:induction false} FanoutAll(fds: seq<nat>, skip: nat, msg: seq<Byte>)
    requires skip !in fds
    ensures Fanout(fds, skip, msg) == Copies(fds, msg)
  {
    if fds != [] {
      FanoutAll(fds[..|fds| - 1], skip, msg);
    }
  }

  /** Two packets out of one receive: the second goes to all but the last other client in the table. */
  lemma SecondMisses(fds: seq<nat>, origin: nat, i: nat, a: seq<Byte>, b: seq<Byte>)
    requires Distinct(fds) && i < |fds| && fds[i] != origin && forall j :: i < j < |fds| ==> fds[j] == origin
    ensures CastAll(fds, origin, [a, b]) == Fanout(fds, origin, a) + Copies(fds[..i] + fds[i + 1..], b)
  {
    CurrentIsLast(fds, origin, i);
    FanoutInOrder(fds, i, b);
    assert [a, b][1..] == [b] && [b][1..] == [];
    var current := Current(fds, fds[i]);
    assert CastAll(fds, current, []) == [];
    assert CastAll(fds, fds[i], [b]) == Fanout(fds, fds[i], b) + [] == Fanout(fds, fds[i], b);
  }

  /** Several packets out of one receive are routed right exactly when there is at most one of them, or nobody
      else to send to: the second packet goes back to its origin. */
  lemma CastRoutes(fds: seq<nat>, origin: nat, msgs: seq<seq<Byte>>)
    requires Distinct(fds) && origin in fds
    ensures CastAll(fds, origin, msgs) == Broadcast(fds, origin, msgs) <==> |msgs| <= 1 || |fds| == 1
  {
    if |fds| == 1 {
      AloneAgrees(fds, origin, msgs);
    } else if |msgs| >= 2 {
      var other := Current(fds, origin);
      assert exists i :: 0 <= i < |fds| && fds[i] != origin by { assert fds[0] != fds[1]; }
      CurrentIsOther(fds, origin);
      FanoutReaches(fds, other, msgs[1]);
      FanoutReaches(fds, origin, msgs[1]);
      var head := Fanout(fds, origin, msgs[0]);
      var written, intended := Fanout(fds, other, msgs[1]), Fanout(fds, origin, msgs[1]);
      assert Sent(origin, msgs[1]) in written && Sent(origin, msgs[1]) !in intended;
      assert msgs[1..][0] == msgs[1];
      CastSecond(fds, origin, msgs);
      assert CastAll(fds, origin, msgs)[|head|..][..|written|] == written;
      assert Broadcast(fds, origin, msgs)[|head|..][..|intended|] == intended;
    }
  }

  lemma CastSecond(fds: seq<nat>, origin: nat, msgs: seq<seq<Byte>>)
    requires |msgs| >= 2
    ensures Fanout(fds, origin, msgs[0]) + Fanout(fds, Current(fds, origin), msgs[1]) <= CastAll(fds, origin, msgs)
    ensures Fanout(fds, origin, msgs[0]) + Fanout(fds, origin, msgs[1]) <= Broadcast(fds, origin, msgs)
  {
    assert msgs[1..][0] == msgs[1];
  }

  lemma {:induction false} AloneAgrees(fds: seq<nat>, origin: nat, msgs: seq<seq<Byte>>)
    requires |fds| == 1 && fds[0] == origin
    ensures CastAll(fds, origin, msgs) == Broadcast(fds, origin, msgs)
  {
    if msgs != [] {
      assert Current(fds[..0], origin) == origin;
      AloneAgrees(fds, origin, msgs[1..]);
    }
  }

  // ---------------------------------------------------------------------------------------------
  // A whole receive
  // ---------------------------------------------------------------------------------------------

  /** The receive of `chunk` from client `origin`, as written: what it hands on and keeps, and what it sends. */
  function AsWritten(fds: seq<nat>, origin: nat, rest: seq<Byte>, expected: nat, chunk: seq<Byte>)
    : (Host.Outcome, seq<Sent>)
  {
    var o := Host.Drain(rest + chunk, rest + chunk, expected);
    (o, CastAll(fds, origin, o.packets))
  }

  function Intended(fds: seq<nat>, origin: nat, rest: seq<Byte>, chunk: seq<Byte>): (Host.Outcome, seq<Sent>) {
    var o := Host.Split(rest + chunk);
    (o, Broadcast(fds, origin, o.packets))
  }

  /** The exact condition under which one receive of the host does what is intended: all frames in the buffer
      have one length, and at most one is completed unless the client is alone. */
  lemma ReceiveAgrees(fds: seq<nat>, origin: nat, rest: seq<Byte>, expected: nat, chunk: seq<Byte>)
    requires Distinct(fds) && origin in fds && Host.Remembered(rest, expected)
    ensures var b := rest + chunk;
            AsWritten(fds, origin, rest, expected, chunk) == Intended(fds, origin, rest, chunk)
            <==> && (|b| < 4 || Host.AllAnnounce(b, Host.Announced(b)))
                 && (|Host.Split(b).packets| <= 1 || |fds| == 1)
  {
    Host.AsWrittenAgrees(rest, expected, chunk);
    CastRoutes(fds, origin, Host.Split(rest + chunk).packets);
  }

  /** The message that should make the server close a client, with its final zero. */
  const STOP_MSG: seq<Byte> := [42, 42, 42, 83, 84, 79, 80, 42, 42, 42, 78, 79, 87, 42, 42, 42, 0]

  /** The length of a string, cut at `n`. */
  function StrnLen(s: seq<Byte>, n: nat): (r: nat)
    requires n <= |s|
    ensures r <= n && forall i :: 0 <= i < r ==> s[i] != 0
  {
    if n == 0 || s[0] == 0 then 0
    else
      var rest := StrnLen(s[1..], n - 1);
      assert forall i :: 0 < i < 1 + rest ==> s[i] == s[1..][i - 1];
      1 + rest
  }

  /** match_end: the comparison includes the final zero, which the length test has ruled out. */
  predicate MatchEnd(s: seq<Byte>)
    requires |s| >= 17
  {
    StrnLen(s, 17) == 17 && s[..17] == STOP_MSG
  }

  /** No packet is taken for the stop message: every packet is cast. */
  lemma NeverStops(s: seq<Byte>)
    requires |s| >= 17
    ensures !MatchEnd(s)
  {
    assert STOP_MSG[16] == 0 && s[..17][16] == s[16];
  }

  // ---------------------------------------------------------------------------------------------
  // The server record
  // ---------------------------------------------------------------------------------------------

  /** client_for_fd */
  method ClientForFd(fds: seq<nat>, fd: nat) returns (clnum: int)
    ensures -1 <= clnum < |fds|
    ensures clnum == -1 <==> fd !in fds
    ensures clnum >= 0 ==> fds[clnum] == fd && fd !in fds[..clnum]
  {
    for i := 0 to |fds|
      invariant fd !in fds[..i]
    {
      if fds[i] == fd {
        return i;
      }
      assert fds[..i + 1] == fds[..i] + [fds[i]];
    }
    assert fds[..|fds|] == fds;
    return -1;
  }

  class Lisa {
    const clientFds: seq<nat>
    var clientFd: nat
    ghost var log: seq<Sent>

    constructor (fds: seq<nat>)
      ensures clientFds == fds && log == []
    {
      clientFds, clientFd, log := fds, 0, [];
    }

    /** lisa_send on a connected link: `accepts` says how many bytes, at least one, each send call takes. */
    method Send(msg: seq<Byte>, accepts: nat -> nat) returns (wire: seq<Byte>)
      modifies this`log
      ensures wire == msg && log == old(log) + [Sent(clientFd, msg)]
    {
      wire := [];
      var bytesSent, calls := 0, 0;
      while bytesSent < |msg|
        invariant bytesSent <= |msg| && wire == msg[..bytesSent]
      {
        var accepted := 1 + accepts(calls);
        var n := if accepted <= |msg| - bytesSent then accepted else |msg| - bytesSent;
        wire := wire + msg[bytesSent..bytesSent + n];
        bytesSent := bytesSent + n;
        calls := calls + 1;
      }
      log := log + [Sent(clientFd, msg)];
    }

    /** lisa_cast of a server */
    method CastOne(msg: seq<Byte>, accepts: nat -> nat)
      modifies this
      ensures log == old(log) + Fanout(clientFds, old(clientFd), msg)
      ensures clientFd == Current(clientFds, old(clientFd))
    {
      var lastClient := clientFd;
      for i := 0 to |clientFds|
        invariant log == old(log) + Fanout(clientFds[..i], lastClient, msg)
        invariant clientFd == Current(clientFds[..i], lastClient)
      {
        assert clientFds[..i + 1][..i] == clientFds[..i];
        if clientFds[i] != lastClient {
          clientFd := clientFds[i];
          var _ := Send(msg, accepts);
        }
      }
      assert clientFds[..|clientFds|] == clientFds;
    }

    /** process_pkt on every packet of one receive from client `origin`. */
    method CastEach(origin: nat, msgs: seq<seq<Byte>>, accepts: nat -> nat)
      modifies this
      ensures log == old(log) + CastAll(clientFds, origin, msgs)
    {
      clientFd := origin;
      for i := 0 to |msgs|
        invariant log + CastAll(clientFds, clientFd, msgs[i..]) == old(log) + CastAll(clientFds, origin, msgs)
      {
        ghost var before, skip := log, clientFd;
        CastOne(msgs[i], accepts);
        assert msgs[i..][0] == msgs[i] && msgs[i..][1..] == msgs[i + 1..];
        assert before + (Fanout(clientFds, skip, msgs[i]) + CastAll(clientFds, clientFd, msgs[i + 1..]))
            == log + CastAll(clientFds, clientFd, msgs[i + 1..]);
      }
    }
  }
}
