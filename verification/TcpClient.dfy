/** The TCP client as an object, refining the state machine method by method. */
module TcpClient {
  import opened Modular
  import opened TcpProtocol

  class TcpClient {
    var sockFd: int
    var connected: bool
    var retries: nat
    var delay: int
    var last: nat
    const auto: bool
    var sendBufferLen: int
    var bytesSent: nat
    var bytesLost: nat
    var connectCount: nat
    var reconnectCount: nat
    ghost var created: nat
    ghost var closed: nat
    ghost var attempts: nat
    ghost var failures: seq<nat>

    /** Nothing ever fills the send buffer. */
    ghost predicate Valid()
      reads this
    {
      sendBufferLen == 0
    }

    ghost function View(): Client
      reads this
    {
      Client(sockFd, connected, retries, delay, last, auto, bytesSent, bytesLost, connectCount, reconnectCount,
             created, closed, attempts, failures)
    }

    constructor (autoReconnect: bool)
      ensures Valid() && View() == Init(autoReconnect)
    {
      sockFd, connected, retries, delay, last := -1, false, 0, INITIAL_DELAY, 0;
      auto := autoReconnect;
      sendBufferLen, bytesSent, bytesLost, connectCount, reconnectCount := 0, 0, 0, 0, 0;
      created, closed, attempts, failures := 0, 0, 0, [];
    }

    /** Closes the descriptor an attempt has just opened. */
    method Abandon()
      requires Valid()
      modifies this
      ensures Valid() && View() == old(View()).(sockFd := -1, closed := old(closed) + 1)
    {
      sockFd := -1;
      closed := closed + 1;
    }

    /** tcp_client_try_connect: every failure after the socket call closes the socket. */
    method TryToConnect(net: Net) returns (ok: bool)
      requires Valid() && !connected
      modifies this
      ensures Valid() && View() == TryConnect(old(View()), net) && ok == connected
    {
      ok := false;
      attempts := attempts + 1;
      sockFd := net.socket;
      if sockFd < 0 {
        return;
      }
      created := created + 1;
      if !net.nonblocking {
        Abandon();
        return;
      }
      if !net.addressOk {
        Abandon();
        return;
      }
      if net.connect == AtOnce {
        connected := true;
        return true;
      }
      if net.connect == InProgress {
        if net.select < 0 {
          Abandon();
          return;
        }
        if net.select == 0 {
          Abandon();
          return;
        }
        if !net.optionOk {
          Abandon();
          return;
        }
        if net.soError != 0 {
          Abandon();
          return;
        }
        connected := true;
        return true;
      }
      Abandon();
    }

    /** tcp_client_connect. */
    method ConnectTo(net: Net) returns (ok: bool)
      requires Valid()
      modifies this
      ensures Valid() && View() == Connect(old(View()), net) && ok == connected
    {
      if connected {
        return true;
      }
      ok := TryToConnect(net);
      if ok {
        connectCount := connectCount + 1;
        retries := 0;
        delay := INITIAL_DELAY;
        failures := [];
      }
    }

    /** tcp_client_disconnect: the flush, which would send and so reconnect, is never reached. */
    method Close()
      requires Valid()
      modifies this
      ensures Valid() && View() == Disconnect(old(View()))
    {
      if sockFd >= 0 {
        if sendBufferLen > 0 {
          assert false;
        }
        closed := closed + 1;
        sockFd := -1;
      }
      connected := false;
    }

    /** tcp_client_flush: there is nothing to flush. */
    method Flush() returns (r: int)
      requires Valid()
      ensures r == 0
    {
      r := 0;
      if sendBufferLen <= 0 {
        return;
      }
      assert false;
    }

    /** tcp_client_reconnect. */
    method TryReconnect(now: nat, net: Net) returns (ok: bool)
      requires Valid()
      modifies this
      ensures Valid() && View() == Reconnect(old(View()), now, net)
      ensures ok == (connected && attempts == old(attempts) + 1)
    {
      if !auto {
        return false;
      }
      if last > 0 {
        var elapsed := WrapSub(now, last);
        if elapsed < delay {
          return false;
        }
      }
      last := now;
      if retries >= MAX_RETRIES {
        return false;
      }
      Close();
      ok := ConnectTo(net);
      SettleBooks(ok, now);
    }

    method SettleBooks(ok: bool, now: nat)
      requires Valid() && ok == connected
      modifies this
      ensures Valid() && View() == Settle(old(View()), now)
    {
      if ok {
        reconnectCount := reconnectCount + 1;
        retries := 0;
        delay := INITIAL_DELAY;
      } else {
        retries := retries + 1;
        delay := BackoffDelay(retries, INITIAL_DELAY, MAX_DELAY);
        failures := failures + [now];
      }
    }

    method RecoverConnection(now: nat, net: Net)
      requires Valid()
      modifies this
      ensures Valid() && View() == Recover(old(View()), now, net)
    {
      if auto {
        var ok := TryReconnect(now, net);
      }
    }

    /** The loop of tcp_client_send. */
    method Transmit(replies: seq<Reply>, len: nat) returns (end: LoopEnd)
      requires Finishes(replies, len, 0)
      ensures end == SendLoop(replies, len, 0)
    {
      var taken, k := 0, 0;
      while taken < len
        invariant 0 <= taken && k <= |replies|
        invariant Finishes(replies[k..], len, taken)
        invariant SendLoop(replies[k..], len, taken) == SendLoop(replies, len, 0)
        decreases |replies| - k
      {
        assert replies[k..][1..] == replies[k + 1..];
        match replies[k] {
          case Took(n) =>
            taken := taken + n;
          case Interrupted =>
          case ConnectionLost =>
            return Broken(taken);
          case WouldBlock(writable) =>
            if !writable {
              return GaveUp(taken);
            }
          case OtherError =>
            return GaveUp(taken);
        }
        k := k + 1;
      }
      end := Complete;
    }

    /** tcp_client_send. */
    method Transfer(x: Call) returns (r: int)
      requires Valid() && ValidCall(x)
      modifies this
      ensures Valid() && View() == Send(old(View()), x) && r == SendResult(old(View()), x)
    {
      if x.body <= 0 {
        return -1;
      }
      if !connected {
        RecoverConnection(x.now, x.net);
        if !connected {
          return -1;
        }
      }
      if x.len <= 0 || x.len >= SEND_BUFFER {
        return -1;
      }
      var end := Transmit(x.replies, x.len);
      r := Conclude(x, end);
    }

    /** What tcp_client_send does once its loop has ended. */
    method Conclude(x: Call, end: LoopEnd) returns (r: int)
      requires Valid() && x.len >= 0 && (end.Broken? ==> end.taken <= x.len)
      modifies this
      ensures Valid() && View() == AfterLoop(old(View()), x, end)
      ensures r == match end
                   case Complete => x.len
                   case Broken(_) => -1
                   case GaveUp(taken) => if taken > 0 then taken else -1
    {
      r := Count(x, end);
      if end.Broken? {
        RecoverConnection(x.now2, x.net2);
      }
    }

    method Count(x: Call, end: LoopEnd) returns (r: int)
      requires Valid() && x.len >= 0 && (end.Broken? ==> end.taken <= x.len)
      modifies this
      ensures Valid() && View() == Counted(old(View()), x, end)
      ensures r == match end
                   case Complete => x.len
                   case Broken(_) => -1
                   case GaveUp(taken) => if taken > 0 then taken else -1
    {
      match end {
        case Complete =>
          bytesSent := bytesSent + x.len;
          r := x.len;
        case Broken(taken) =>
          connected := false;
          bytesLost := bytesLost + (x.len - taken);
          r := -1;
        case GaveUp(taken) =>
          r := if taken > 0 then taken else -1;
      }
    }

    /** tcp_client_is_connected: `alive` is what peeking at the socket tells. */
    method CheckConnected(alive: bool) returns (r: bool)
      requires Valid()
      modifies this
      ensures Valid() && View() == Poll(old(View()), alive)
      ensures r == (connected && sockFd >= 0)
    {
      if connected && sockFd >= 0 {
        if !alive {
          connected := false;
          return false;
        }
        return true;
      }
      r := false;
    }
  }
}
