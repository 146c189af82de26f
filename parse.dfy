/**
 * What the parse loop of the wakeup handler builds from the lines of one
 * datagram: the typed device attributes, the `action` string, the duplicated
 * `device` string and the ordered list of `input_option_new` calls.
 */
module Parser {
  import opened Wrappers
  import opened Framing

  /** The backend name (BACKENDSTR). */
  const BackendName := "x11hotplug"

  /** The capability tags a `type=` line can set. Each stands for one ATTR_*
      bit, so OR-ing a bit into the flag word is adding a tag to the set. */
  datatype Cap = Keyboard | Pointer | Joystick | Tablet | Touchscreen | Touchpad

  /** The `type=` value that selects a tag. */
  function CapName(c: Cap): string
  {
    match c
    case Keyboard => "keyboard"
    case Pointer => "pointer"
    case Joystick => "joystick"
    case Tablet => "tablet"
    case Touchscreen => "touchscreen"
    case Touchpad => "touchpad"
  }

  /** The `strcmp` chain over a `type=` value: the tag named, or none. */
  function CapOf(v: string): (c: Option<Cap>)
    ensures c.Some? ==> CapName(c.value) == v
    ensures c.None? ==> forall x :: CapName(x) != v
  {
    if v == "keyboard" then Some(Keyboard)
    else if v == "pointer" then Some(Pointer)
    else if v == "joystick" then Some(Joystick)
    else if v == "tablet" then Some(Tablet)
    else if v == "touchscreen" then Some(Touchscreen)
    else if v == "touchpad" then Some(Touchpad)
    else None
  }

  /** InputAttributes as far as this backend fills it in. */
  datatype Attrs = Attrs(
    flags: set<Cap>,
    device: Option<string>,
    vendor: Option<string>,
    product: Option<string>,
    pnpId: Option<string>,
    usbId: Option<string>)

  /** One `input_option_new(options, key, value)` call. */
  datatype InputOption = InputOption(key: string, value: Option<string>)

  /** The handler's locals after parsing: `hotplug_action`, `device`, `attrs`, `options`. */
  datatype Event = Event(action: Option<string>, device: Option<string>, attrs: Attrs, options: seq<InputOption>)

  const SourceOption := InputOption("_source", Some("server/" + BackendName))

  /** The state before the first line: empty attributes, one `_source` option. */
  const Initial := Event(None, None, Attrs({}, None, None, None, None, None), [SourceOption])

  /** A `type` line must carry a value: `strcmp(NULL, ...)` is undefined.
      The only line with key `type` and no '=' is `type` itself. */
  predicate Typed(line: string)
  {
    line != "type"
  }

  lemma TypedMeansValued(line: string)
    ensures Typed(line) <==> (KeyOf(line) == "type" ==> ValueOf(line).Some?)
  {
    KeyValueSplit(line);
  }

  predicate AllTyped(ls: seq<string>)
  {
    forall i :: 0 <= i < |ls| ==> Typed(ls[i])
  }

  /** One pass of the loop body over a line split into `key` and `value`.
      The recognised keys are distinct, so the `strcmp` chain updates at most
      one typed field: the one named by the key (`xstrdup` of NULL being
      NULL), both `attrs.device` and `device` for `device`, a tag for `type`;
      every line is forwarded as an option. */
  function Step(ev: Event, key: string, value: Option<string>): Event
    requires key == "type" ==> value.Some?
  {
    Event(
      if key == "action" then value else ev.action,
      if key == "device" then value else ev.device,
      AttrsStep(ev.attrs, key, value),
      ev.options + [InputOption(key, value)])
  }

  /** What one line does to `attrs`. */
  function AttrsStep(a: Attrs, key: string, value: Option<string>): Attrs
    requires key == "type" ==> value.Some?
  {
    Attrs(
      if key == "type" then FlagsStep(a.flags, value.value) else a.flags,
      if key == "device" then value else a.device,
      if key == "vendor" then value else a.vendor,
      if key == "product" then value else a.product,
      if key == "pnp_id" then value else a.pnpId,
      if key == "usb_id" then value else a.usbId)
  }

  /** `attrs.flags |= ATTR_...` for a `type` value naming a tag; others set nothing. */
  function FlagsStep(flags: set<Cap>, v: string): set<Cap>
  {
    match CapOf(v)
    case Some(c) => flags + {c}
    case None => flags
  }

  /** The loop over a sequence of lines, in order. */
  function Fold(ls: seq<string>): Event
    requires AllTyped(ls)
  {
    if ls == [] then Initial
    else
      var last := ls[|ls| - 1];
      TypedMeansValued(last);
      Step(Fold(ls[..|ls| - 1]), KeyOf(last), ValueOf(last))
  }

  /** Datagrams the handler parses without undefined behaviour. */
  predicate Parsable(m: string)
  {
    Accepted(m) && AllTyped(Lines(m))
  }

  function Parse(m: string): Event
    requires Parsable(m)
  {
    Fold(Lines(m))
  }

  /** The options are `_source` followed by one pair per line, recognised or
      not, in line order. */
  lemma {:induction false} OptionsFollowLines(ls: seq<string>)
    requires AllTyped(ls)
    ensures |Fold(ls).options| == |ls| + 1
    ensures Fold(ls).options[0] == SourceOption
    ensures forall i :: 0 <= i < |ls| ==> Fold(ls).options[i + 1] == InputOption(KeyOf(ls[i]), ValueOf(ls[i]))
  {
    if ls != [] {
      var init := ls[..|ls| - 1];
      OptionsFollowLines(init);
      forall i | 0 <= i < |ls| - 1
        ensures Fold(ls).options[i + 1] == InputOption(KeyOf(ls[i]), ValueOf(ls[i]))
      {
        assert init[i] == ls[i];
      }
    }
  }

  /** What one line does to the flags. */
  lemma StepFlags(ev: Event, key: string, value: Option<string>)
    requires key == "type" ==> value.Some?
    ensures Step(ev, key, value).attrs.flags ==
            if key == "type" && CapOf(value.value).Some? then ev.attrs.flags + {CapOf(value.value).value}
            else ev.attrs.flags
  {
  }

  /** What one line does to a typed field. */
  lemma StepField(ev: Event, key: string, value: Option<string>, k: string)
    requires key == "type" ==> value.Some?
    requires IsTypedKey(k)
    ensures Field(Step(ev, key, value), k) == if key == k then value else Field(ev, k)
  {
  }

  /** A `type` line selects tag `c` exactly when it reads `type=<name of c>`. */
  lemma TypeLineNames(line: string, c: Cap)
    requires Typed(line)
    ensures (KeyOf(line) == "type" && CapOf(ValueOf(line).value) == Some(c)) <==> line == "type=" + CapName(c)
  {
    KeyValueSplit(line);
    assert "type=" + CapName(c) == "type" + "=" + CapName(c);
    KeyValueJoin("type", CapName(c));
  }

  /** A tag is set exactly when some line reads `type=<its name>`: several
      `type` lines give the union, any other value sets nothing. */
  lemma {:induction false} FlagsAreTypeUnion(ls: seq<string>)
    requires AllTyped(ls)
    ensures forall c :: c in Fold(ls).attrs.flags <==> "type=" + CapName(c) in ls
  {
    if ls != [] {
      var init, last := ls[..|ls| - 1], ls[|ls| - 1];
      FlagsAreTypeUnion(init);
      StepFlags(Fold(init), KeyOf(last), ValueOf(last));
      assert ls == init + [last];
      forall c
        ensures c in Fold(ls).attrs.flags <==> "type=" + CapName(c) in ls
      {
        TypeLineNames(last, c);
      }
    }
  }

  /** The keys whose value lands in a typed field. */
  predicate IsTypedKey(key: string)
  {
    key in ["action", "device", "vendor", "product", "pnp_id", "usb_id"]
  }

  /** The typed field a key writes. */
  function Field(ev: Event, key: string): Option<string>
    requires IsTypedKey(key)
  {
    if key == "action" then ev.action
    else if key == "device" then ev.attrs.device
    else if key == "vendor" then ev.attrs.vendor
    else if key == "product" then ev.attrs.product
    else if key == "pnp_id" then ev.attrs.pnpId
    else ev.attrs.usbId
  }

  /** No line of `ls` has key `key`. */
  predicate NoLineWith(ls: seq<string>, key: string)
  {
    forall i :: 0 <= i < |ls| ==> KeyOf(ls[i]) != key
  }

  /** Line `i` is the last line of `ls` with key `key`. */
  predicate LastLineWith(ls: seq<string>, key: string, i: int)
  {
    0 <= i < |ls| && KeyOf(ls[i]) == key && NoLineWith(ls[i + 1..], key)
  }

  /** A typed field stays NULL when no line has its key. */
  lemma {:induction false} AbsentKeyLeavesNull(ls: seq<string>, key: string)
    requires AllTyped(ls) && IsTypedKey(key)
    requires NoLineWith(ls, key)
    ensures Field(Fold(ls), key) == None
  {
    if ls != [] {
      var init := ls[..|ls| - 1];
      var last := ls[|ls| - 1];
      assert NoLineWith(init, key) by {
        forall i | 0 <= i < |init| ensures KeyOf(init[i]) != key {
          assert init[i] == ls[i];
        }
      }
      AbsentKeyLeavesNull(init, key);
      StepField(Fold(init), KeyOf(last), ValueOf(last), key);
    }
  }

  /** A typed field holds the value of the last line with its key. */
  lemma {:induction false} LastOccurrenceWins(ls: seq<string>, key: string, i: int)
    requires AllTyped(ls) && IsTypedKey(key)
    requires LastLineWith(ls, key, i)
    ensures Field(Fold(ls), key) == ValueOf(ls[i])
  {
    var init := ls[..|ls| - 1];
    var last := ls[|ls| - 1];
    StepField(Fold(init), KeyOf(last), ValueOf(last), key);
    if i < |ls| - 1 {
      assert init[i] == ls[i];
      var rest, after := init[i + 1..], ls[i + 1..];
      assert NoLineWith(rest, key) by {
        forall j | 0 <= j < |rest| ensures KeyOf(rest[j]) != key {
          assert rest[j] == after[j];
        }
      }
      LastOccurrenceWins(init, key, i);
    }
  }

  /** `device` is always a copy of `attrs.device`. */
  lemma {:induction false} DeviceMirrorsAttrs(ls: seq<string>)
    requires AllTyped(ls)
    ensures Fold(ls).device == Fold(ls).attrs.device
  {
    if ls != [] {
      DeviceMirrorsAttrs(ls[..|ls| - 1]);
    }
  }

  /** How far the parse loop has got in a parsable datagram `m`: `key`
      starts a line (the first, or one after a '\n'), the lines before it
      are `done`, and the empty line is still ahead. */
  ghost predicate Scanned(m: string, key: nat, done: seq<string>)
  {
    key <= |m| && Framed(m, 0) && Framed(m, key) &&
    (key > 0 ==> m[key - 1] == '\n') &&
    Terminator(m, key) == Terminator(m, 0) &&
    LinesFrom(m, 0) == done + LinesFrom(m, key) && AllTyped(done)
  }

  lemma ScanStart(m: string)
    requires Parsable(m)
    ensures Scanned(m, 0, [])
  {
  }

  /** A non-empty line at `key` ends in '\n' and is the next of the lines. */
  lemma ScanNext(m: string, key: nat, done: seq<string>)
    requires Parsable(m) && Scanned(m, key, done) && LineEnd(m, key) > key
    ensures LineEnd(m, key) < |m| && m[LineEnd(m, key)] == '\n'
    ensures Typed(m[key..LineEnd(m, key)]) && NUL !in m[key..LineEnd(m, key)]
    ensures Scanned(m, LineEnd(m, key) + 1, done + [m[key..LineEnd(m, key)]])
  {
    var j := LineEnd(m, key);
    NextLine(m, key);
    NextLineDone(m, key, done);
    TypedSnoc(done, m[key..j]);
    LineHasNoNul(m, key);
  }

  lemma NextLineDone(m: string, key: nat, done: seq<string>)
    requires Parsable(m) && key <= |m| && Framed(m, key) && LineEnd(m, key) > key
    requires Lines(m) == done + LinesFrom(m, key)
    requires LinesFrom(m, key) == [m[key..LineEnd(m, key)]] + LinesFrom(m, LineEnd(m, key) + 1)
    requires LineEnd(m, key) < |m| && Framed(m, LineEnd(m, key) + 1)
    ensures Typed(m[key..LineEnd(m, key)])
    ensures Lines(m) == (done + [m[key..LineEnd(m, key)]]) + LinesFrom(m, LineEnd(m, key) + 1)
  {
    var line := m[key..LineEnd(m, key)];
    assert Lines(m)[|done|] == line;
  }

  /** The empty line at `key` is the terminator, past the first line, and
      all lines are done. */
  lemma ScanEnd(m: string, key: nat, done: seq<string>)
    requires Parsable(m) && Scanned(m, key, done) && LineEnd(m, key) == key
    ensures 0 < key == Terminator(m, 0) && done == Lines(m)
  {
  }

  lemma TypedSnoc(done: seq<string>, line: string)
    requires AllTyped(done) && Typed(line)
    ensures AllTyped(done + [line])
  {
    assert forall i :: 0 <= i < |done| ==> (done + [line])[i] == done[i];
  }

  lemma FoldSnoc(done: seq<string>, line: string)
    requires AllTyped(done) && Typed(line)
    ensures AllTyped(done + [line])
    ensures Fold(done + [line]) == Step(Fold(done), KeyOf(line), ValueOf(line))
  {
    assert (done + [line])[..|done|] == done;
  }
}
