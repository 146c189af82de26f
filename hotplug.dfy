/**
 * The backend's static state and its entry points: init, the block handler,
 * the wakeup handler that receives a datagram and answers it, and fini.
 */
module Hotplug {
  import opened Wrappers
  import opened Framing
  import opened Parser
  import opened Dispatch
  import opened SocketName
  import opened InPlace
  import opened Lifecycle

  /** The wakeup handler acts only after a successful select that reported
      the socket, and only on a non-empty datagram. */
  predicate Handles(result: int, sock: int, ready: set<int>, data: string)
  {
    result > 0 && sock >= 0 && sock in ready && |data| > 0
  }

  /** The static state of the backend. */
  class Backend {
    var sock: int
    var general: set<int>
    var handlers: bool
    ghost var closed: seq<int>
    /** The calls made into the input subsystem. */
    ghost var trace: seq<Call>
    /** `static char buf[1024]`. */
    const buf: array<char>

    ghost predicate Valid()
      reads this
    {
      buf.Length == BufSize
    }

    ghost function State(): SocketState
      reads this
    {
      SocketState(sock, general, handlers, closed)
    }

    constructor ()
      ensures Valid() && fresh(buf)
      ensures State() == Unopened && trace == []
    {
      sock, general, handlers := -1, {}, false;
      closed, trace := [], [];
      buf := new char[BufSize];
    }

    /** `config_x11hotplug_init`: `fd` is what `socket` returns and `bindOk`
        whether `bind` succeeds on the name built from `display`. */
    method Init(display: string, fd: int, bindOk: bool) returns (ok: bool, ghost address: string)
      requires FitsSunPath(display)
      modifies this
      ensures State() == Lifecycle.Init(old(State()), fd, bindOk)
      ensures ok == (fd >= 0 && bindOk)
      ensures address == BoundName(display)
      ensures trace == old(trace)
    {
      address := BoundName(display);
      sock := fd;
      if sock < 0 {
        return false, address;
      }
      if !bindOk {
        closed := closed + [sock];
        sock := -1;
        return false, address;
      }
      handlers := true;
      ok := true;
    }

    /** `x11hotplug_block_handler`: `readMask` is the mask the server hands
        it, returned as the handler leaves it. */
    method BlockHandler(readMask: set<int>) returns (mask: set<int>)
      modifies this
      ensures State() == Lifecycle.Block(old(State()), readMask)
      ensures mask == BlockMask(old(State()), readMask)
      ensures trace == old(trace)
    {
      mask := readMask;
      if sock >= 0 && sock !in mask {
        general := general + {sock};                    // AddGeneralSocket(sock)
        mask := mask + {sock};                          // FD_SET(sock, read_mask)
      }
    }

    /** `config_x11hotplug_fini`. */
    method Fini()
      modifies this
      ensures State() == Lifecycle.Fini(old(State()))
      ensures trace == old(trace)
    {
      if sock < 0 {
        return;
      }
      general := general - {sock};
      handlers := false;
      closed := closed + [sock];
      sock := -1;
    }

    /** `remove_devices(backend, config_info)`: recorded, not modelled. */
    method RemoveDevices(backend: string, configInfo: string)
      modifies this`trace
      ensures trace == old(trace) + [Evict(backend, configInfo)]
    {
      trace := trace + [Evict(backend, configInfo)];
    }

    /** `NewInputDeviceRequest`: recorded; whether it returns Success is not
        up to the backend. */
    method NewInputDeviceRequest(options: seq<InputOption>, attrs: Attrs) returns (success: bool)
      modifies this`trace
      ensures trace == old(trace) + [Create(options, attrs, success)]
    {
      success := *;
      trace := trace + [Create(options, attrs, success)];
    }

    /** `x11hotplug_wakeup_handler`: `result` is what select returned,
        `ready` the read mask it left, `data` what `recvfrom` received (empty
        when it failed or got nothing) and `asprintfOk` whether `asprintf`
        succeeded. An acted-on datagram must parse without undefined
        behaviour and its reply must fit in `buf`, whatever the input
        subsystem answers. */
    method WakeupHandler(result: int, ready: set<int>, data: string, asprintfOk: bool)
      returns (sent: Option<string>, created: bool)
      requires Valid() && |data| < BufSize
      requires Handles(result, sock, ready, data) ==>
                 && Parsable(data)
                 && ReplyFits(data, Outcome(Parse(data), asprintfOk, true))
                 && ReplyFits(data, Outcome(Parse(data), asprintfOk, false))
      modifies this`trace, buf
      ensures !Handles(result, sock, ready, data) ==>
                sent.None? && trace == old(trace) && buf[..] == old(buf[..])
      ensures Handles(result, sock, ready, data) ==>
                && var ev := Parse(data);
                && var reply := Reply(data, Outcome(ev, asprintfOk, created));
                && sent == Some(reply)
                && trace == old(trace) + CallsFor(ev, asprintfOk, created)
                && buf[..] == reply + [NUL] + Received(old(buf[..]), data)[|reply| + 1..]
    {
      created := false;
      if result <= 0 || sock < 0 || sock !in ready {
        return None, created;
      }
      var n := |data|;                                  // ret = recvfrom(...)
      if n == 0 {
        return None, created;
      }
      var reply;
      reply, created := Answer(data, asprintfOk);
      sent := Some(reply);
    }

    /** The handler's work on a received non-empty datagram: store it, parse
        it, call the input subsystem and write the reply after the request. */
    method Answer(data: string, asprintfOk: bool) returns (sent: string, created: bool)
      requires Valid() && 0 < |data| < BufSize && Parsable(data)
      requires ReplyFits(data, Outcome(Parse(data), asprintfOk, true))
      requires ReplyFits(data, Outcome(Parse(data), asprintfOk, false))
      modifies this`trace, buf
      ensures sent == Reply(data, Outcome(Parse(data), asprintfOk, created))
      ensures trace == old(trace) + CallsFor(Parse(data), asprintfOk, created)
      ensures buf[..] == sent + [NUL] + Received(old(buf[..]), data)[|sent| + 1..]
    {
      ghost var before := buf[..];
      var key, ev := Load(buf, data);                   // recvfrom, buf[ret] = 0, parse
      created := Dispatch(ev, asprintfOk);
      var text := ResultText(Failure(Choose(ev, asprintfOk), created));
      assert text == Outcome(Parse(data), asprintfOk, created);
      OutcomeIsCString(ev, asprintfOk, created);
      assert ReplyFits(data, text) by {
        if created { } else { }
      }
      var end := Respond(buf, key, text, data, before);
      sent := buf[..end];                               // sendto(sock, buf, key - buf)
    }

    /** The registry calls of the chosen branch; the answer of
        NewInputDeviceRequest is returned (false when it is not asked). */
    method Dispatch(ev: Event, asprintfOk: bool) returns (created: bool)
      modifies this`trace
      ensures trace == old(trace) + CallsFor(ev, asprintfOk, created)
      ensures Choose(ev, asprintfOk) != AddDevice ==> !created
    {
      created := false;
      var plan := Choose(ev, asprintfOk);
      if plan == AddDevice {
        RemoveDevices(BackendName, ConfigInfo(ev.device.value));
        created := NewInputDeviceRequest(FinalOptions(ev, asprintfOk), ev.attrs);
      } else if plan == RemoveDevice {
        RemoveDevices(BackendName, ConfigInfo(ev.device.value));
      }
    }
  }
}
