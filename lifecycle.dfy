/**
 * The socket's lifecycle across init, the block handler and fini, on the
 * values those functions read and write: the static `sock`, the server's
 * general sockets, the handler registration, and the descriptors closed.
 * The select read mask is not part of this state: the server hands the
 * block handler its mask on every call.
 */
module Lifecycle {
  /** The backend's socket and what the server and the OS know of it:
      `sock` (the static descriptor, -1 when there is none), the server's
      general sockets, whether the block and wakeup handlers are
      registered, and every descriptor passed to `close`, in order. */
  datatype SocketState = SocketState(sock: int, general: set<int>, handlers: bool, closed: seq<int>)

  /** Before init: `static int sock = -1`. */
  const Unopened := SocketState(-1, {}, false, [])

  /** Whether the block handler installs the socket into `mask`. */
  predicate Installs(g: SocketState, mask: set<int>)
  {
    g.sock >= 0 && g.sock !in mask
  }

  /** The block handler on the server's state: an installed socket becomes
      a general socket. */
  function Block(g: SocketState, mask: set<int>): SocketState
  {
    if Installs(g, mask) then g.(general := g.general + {g.sock}) else g
  }

  /** The block handler on the mask it is handed: `FD_SET(sock, read_mask)`
      when it installs the socket. */
  function BlockMask(g: SocketState, mask: set<int>): set<int>
  {
    if Installs(g, mask) then mask + {g.sock} else mask
  }

  /** fini: with a socket, it is removed from the general sockets, the
      handlers are removed, the descriptor is closed and `sock` reset. */
  function Fini(g: SocketState): SocketState
  {
    if g.sock < 0 then g
    else g.(sock := -1, general := g.general - {g.sock}, handlers := false, closed := g.closed + [g.sock])
  }

  /** init as written: `sock` takes what `socket` returned (`fd`, negative on
      failure); when `bind` fails the descriptor is closed, but `sock` keeps it. */
  function InitAsWritten(g: SocketState, fd: int, bindOk: bool): SocketState
  {
    if fd < 0 then g.(sock := fd)
    else if !bindOk then g.(sock := fd, closed := g.closed + [fd])
    else g.(sock := fd, handlers := true)
  }

  /** init with `sock` reset to -1 once the descriptor is closed. */
  function Init(g: SocketState, fd: int, bindOk: bool): SocketState
  {
    if fd < 0 then g.(sock := fd)
    else if !bindOk then g.(sock := -1, closed := g.closed + [fd])
    else g.(sock := fd, handlers := true)
  }

  /** A second block handler call on the mask the first one returned
      changes nothing, and after one call an open socket is watched. */
  lemma BlockIdempotent(g: SocketState, mask: set<int>)
    ensures Block(Block(g, mask), BlockMask(g, mask)) == Block(g, mask)
    ensures BlockMask(Block(g, mask), BlockMask(g, mask)) == BlockMask(g, mask)
    ensures g.sock >= 0 ==> g.sock in BlockMask(g, mask)
    ensures BlockMask(g, mask) - mask <= {g.sock} && mask <= BlockMask(g, mask)
    ensures g.sock >= 0 && g.sock !in mask ==> Block(g, mask).general == g.general + {g.sock}
    ensures g.sock < 0 || g.sock in mask ==> Block(g, mask) == g && BlockMask(g, mask) == mask
    ensures Block(g, mask).sock == g.sock && Block(g, mask).closed == g.closed
  {
  }

  /** After fini and a new init that gets the same descriptor, the block
      handler installs it again in a mask the server built without it. */
  lemma ReopenedSocketIsInstalled(g: SocketState, fd: nat, mask: set<int>)
    requires fd !in mask
    ensures var h := Init(Fini(g), fd, true);
              && fd in BlockMask(h, mask)
              && fd in Block(h, mask).general
  {
  }

  /** fini leaves no socket (`sock` is -1 after a close, and negative
      before it only if it already was), so a second fini changes nothing. */
  lemma FiniIdempotent(g: SocketState)
    ensures Fini(g).sock < 0
    ensures Fini(Fini(g)) == Fini(g)
    ensures g.sock >= 0 ==> Fini(g).sock == -1 && Fini(g).closed == g.closed + [g.sock]
    ensures g.sock >= 0 ==> !Fini(g).handlers && g.sock !in Fini(g).general
  {
  }

  /** As written, the descriptor of a socket that failed to bind is closed
      by init and again by fini. */
  lemma StaleDescriptorAfterBindFailure(fd: nat)
    ensures Fini(InitAsWritten(Unopened, fd, false)).closed == [fd, fd]
  {
  }

  /** With the reset, init then fini closes each descriptor `socket` gave
      exactly once, whatever `bind` did, and leaves no socket. */
  lemma InitThenFiniClosesOnce(fd: int, bindOk: bool)
    ensures Fini(Init(Unopened, fd, bindOk)).closed == (if fd >= 0 then [fd] else [])
    ensures Fini(Init(Unopened, fd, bindOk)).sock < 0
    ensures Init(Unopened, fd, bindOk).handlers <==> fd >= 0 && bindOk
  {
  }
}
