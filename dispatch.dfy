/**
 * What the wakeup handler does with a parsed event: the fixed chain that
 * chooses between the failure strings and success, the calls it makes into
 * the input subsystem, and the reply it sends back.
 */
module Dispatch {
  import opened Wrappers
  import opened Framing
  import opened Parser

  /** The branch the handler takes after parsing. */
  datatype Plan = NoDevice | AsprintfFailed | NoAction | AddDevice | RemoveDevice | Unsupported

  /** The outcome chain: no device, then asprintf, then the action. */
  function Choose(ev: Event, asprintfOk: bool): Plan
  {
    if ev.device.None? then NoDevice
    else if !asprintfOk then AsprintfFailed
    else if ev.action.None? then NoAction
    else if ev.action.value == "add" then AddDevice
    else if ev.action.value == "remove" then RemoveDevice
    else Unsupported
  }

  /** The `failure` string a branch leaves; `created` is what
      NewInputDeviceRequest returned (only asked on the add branch). */
  function Failure(plan: Plan, created: bool): Option<string>
  {
    match plan
    case NoDevice => Some("no device")
    case AsprintfFailed => Some("asprintf failed")
    case NoAction => Some("no action for event")
    case AddDevice => if created then None else Some("NewInputDeviceRequest failed")
    case RemoveDevice => None
    case Unsupported => Some("unsupported action")
  }

  /** `failure ?: "ok"`, the text after `result=`. */
  function ResultText(failure: Option<string>): string
  {
    failure.GetOr("ok")
  }

  /** The result text for an event. */
  function Outcome(ev: Event, asprintfOk: bool, created: bool): string
  {
    ResultText(Failure(Choose(ev, asprintfOk), created))
  }

  /** `asprintf(&config_info, "%s:%s", BACKENDSTR, device)`. */
  function ConfigInfo(device: string): string
  {
    BackendName + ":" + device
  }

  /** The option list handed to NewInputDeviceRequest: the `config_info`
      pair is added only past the device and asprintf checks. */
  function FinalOptions(ev: Event, asprintfOk: bool): seq<InputOption>
  {
    if ev.device.Some? && asprintfOk then ev.options + [InputOption("config_info", Some(ConfigInfo(ev.device.value)))]
    else ev.options
  }

  /** A call into the input subsystem, neither of which is part of this model. */
  datatype Call =
    | Evict(backend: string, configInfo: string)                          // remove_devices
    | Create(options: seq<InputOption>, attrs: Attrs, success: bool)     // NewInputDeviceRequest

  /** The calls the chosen branch makes, in order. */
  function CallsFor(ev: Event, asprintfOk: bool, created: bool): seq<Call>
  {
    match Choose(ev, asprintfOk)
    case AddDevice =>
      [Evict(BackendName, ConfigInfo(ev.device.value)), Create(FinalOptions(ev, asprintfOk), ev.attrs, created)]
    case RemoveDevice => [Evict(BackendName, ConfigInfo(ev.device.value))]
    case _ => []
  }

  const ResultPrefix := "\nresult="

  /** The bytes sent back: the datagram up to, not including, the '\n' of its
      last line, then `"\nresult=" + text` (`sprintf` at `key` after the
      parse loop stepped back over that '\n'). */
  function Reply(m: string, text: string): string
    requires Accepted(m)
  {
    m[..Terminator(m, 0) - 1] + ResultPrefix + text
  }

  /** Every result text is a C string, so `sprintf` copies all of it. */
  lemma OutcomeIsCString(ev: Event, asprintfOk: bool, created: bool)
    ensures NUL !in Outcome(ev, asprintfOk, created)
  {
    match Choose(ev, asprintfOk)
    case NoDevice => assert NUL !in "no device";
    case AsprintfFailed => assert NUL !in "asprintf failed";
    case NoAction => assert NUL !in "no action for event";
    case AddDevice =>
      assert NUL !in "ok";
      assert NUL !in "NewInputDeviceRequest failed";
    case RemoveDevice => assert NUL !in "ok";
    case Unsupported => assert NUL !in "unsupported action";
  }

  /** The outcome chain, branch by branch, with the calls each branch makes
      and the result it reports. */
  lemma OutcomeChain(ev: Event, asprintfOk: bool, created: bool)
    ensures ev.device.None? ==>
              Outcome(ev, asprintfOk, created) == "no device" && CallsFor(ev, asprintfOk, created) == []
    ensures ev.device.Some? && !asprintfOk ==>
              Outcome(ev, asprintfOk, created) == "asprintf failed" && CallsFor(ev, asprintfOk, created) == []
    ensures ev.device.Some? && asprintfOk && ev.action.None? ==>
              Outcome(ev, asprintfOk, created) == "no action for event" && CallsFor(ev, asprintfOk, created) == []
    ensures ev.device.Some? && asprintfOk && ev.action == Some("add") ==>
              && CallsFor(ev, asprintfOk, created) ==
                 [ Evict(BackendName, BackendName + ":" + ev.device.value),
                   Create(ev.options + [InputOption("config_info", Some(BackendName + ":" + ev.device.value))],
                          ev.attrs, created) ]
              && Outcome(ev, asprintfOk, created) == (if created then "ok" else "NewInputDeviceRequest failed")
    ensures ev.device.Some? && asprintfOk && ev.action == Some("remove") ==>
              && CallsFor(ev, asprintfOk, created) == [Evict(BackendName, BackendName + ":" + ev.device.value)]
              && Outcome(ev, asprintfOk, created) == "ok"
    ensures ev.device.Some? && asprintfOk && ev.action.Some? && ev.action.value !in ["add", "remove"] ==>
              Outcome(ev, asprintfOk, created) == "unsupported action" && CallsFor(ev, asprintfOk, created) == []
  {
  }

  /** The reply says ok exactly for a remove, and for an add the input
      subsystem accepted. */
  lemma ReplyOkIff(ev: Event, asprintfOk: bool, created: bool)
    ensures Outcome(ev, asprintfOk, created) == "ok" <==>
              ev.device.Some? && asprintfOk &&
              (ev.action == Some("remove") || (ev.action == Some("add") && created))
  {
  }

  /** The input subsystem is called exactly for add and remove, and it is
      always told to evict before anything is created. */
  lemma RegistryCalledOnlyForAddOrRemove(ev: Event, asprintfOk: bool, created: bool)
    ensures CallsFor(ev, asprintfOk, created) != [] <==>
              ev.device.Some? && asprintfOk && ev.action.Some? && ev.action.value in ["add", "remove"]
    ensures CallsFor(ev, asprintfOk, created) != [] ==> CallsFor(ev, asprintfOk, created)[0].Evict?
  {
  }

  /** The reply repeats every line of the request with its '\n', then
      `result=` and the text: nothing of the request is lost or changed. */
  lemma ReplyEchoesRequest(m: string, text: string)
    requires Accepted(m)
    ensures Reply(m, text) == Unlines(Lines(m)) + "result=" + text
    ensures Reply(m, text)[..Terminator(m, 0)] == m[..Terminator(m, 0)]
  {
    var head := m[..Terminator(m, 0) - 1];
    LinesEndInNewline(m);
    calc {
      Reply(m, text);
      head + ResultPrefix + text;
      { assert ResultPrefix == "\n" + "result="; }
      head + ("\n" + "result=") + text;
      (head + "\n") + "result=" + text;
    }
  }

  /** The lines joined again are the request up to its last '\n'. */
  lemma LinesEndInNewline(m: string)
    requires Accepted(m)
    ensures Unlines(Lines(m)) == m[..Terminator(m, 0) - 1] + "\n" == m[..Terminator(m, 0)]
  {
    var t := Terminator(m, 0);
    LinesRoundTrip(m, 0);
    assert m[0..t] == m[..t];
  }
}
