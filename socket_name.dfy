/**
 * The address the backend binds its datagram socket to: the display name
 * after a fixed prefix, moved into the Linux abstract namespace by turning
 * the leading '@' into NUL after the address length was taken.
 */
module SocketName {
  import opened Framing

  /** SOCKPREFIX. */
  const SockPrefix := "@x11hotplug:"

  /** offsetof(struct sockaddr_un, sun_path): the 16-bit address family. */
  const SunPathOffset := 2

  /** sizeof(sun_path) in the Linux `struct sockaddr_un`. */
  const SunPathSize := 108

  /** A display name `sprintf` can put after the prefix: a C string that
      leaves room for the terminating NUL in `sun_path`. */
  predicate FitsSunPath(display: string)
  {
    NUL !in display && |SockPrefix| + |display| < SunPathSize
  }

  /** `sprintf(name.sun_path, SOCKPREFIX "%s", display)`. */
  function SunPath(display: string): string
    requires FitsSunPath(display)
  {
    SockPrefix + display
  }

  /** `SUN_LEN(&name)`, taken while the '@' is still there so that it counts. */
  function AddressLength(display: string): nat
    requires FitsSunPath(display)
  {
    SunPathOffset + |SunPath(display)|
  }

  /** The '@' to NUL rewrite that selects the abstract namespace. */
  function Abstract(path: string): string
    requires path != []
  {
    if path[0] == '@' then path[0 := NUL] else path
  }

  /** The name the socket is bound to: the `namelen - offset` bytes of
      `sun_path` after the rewrite. */
  function BoundName(display: string): (name: string)
    requires FitsSunPath(display)
    ensures |name| == AddressLength(display) - SunPathOffset
    ensures name == [NUL] + "x11hotplug:" + display
  {
    Abstract(SunPath(display))[..AddressLength(display) - SunPathOffset]
  }

  /** Different displays bind different names, so two servers do not collide. */
  lemma DistinctDisplaysDistinctNames(d1: string, d2: string)
    requires FitsSunPath(d1) && FitsSunPath(d2)
    ensures BoundName(d1) == BoundName(d2) <==> d1 == d2
  {
    var p := [NUL] + "x11hotplug:";
    if BoundName(d1) == BoundName(d2) {
      assert d1 == BoundName(d1)[|p|..];
      assert d2 == BoundName(d2)[|p|..];
    }
  }
}
