/**
 * `check_audio_devices` in USV_detector.py: find the first Scarlett/Focusrite
 * input device in the device list and probe it at 192 kHz, then at 96 kHz.
 *
 * The device query (`sounddevice.query_devices`) and the probe
 * (`sounddevice.check_input_settings(device=name, samplerate=rate, channels=1)`)
 * are foreign calls; they are parameters here. A query is either the device
 * list or the text of the exception it raised; a probe answers `None` when the
 * settings are accepted and the text of its exception otherwise.
 */
module Devices {
  import opened Wrappers
  import opened PyOps

  /** One entry of the device list: its `name` and `max_input_channels`. */
  datatype Device = Device(name: string, maxInputChannels: int)

  /** What `check_audio_devices` decided, before it is turned into `(ok, message)`. */
  datatype DeviceStatus =
    | QueryFailed(reason: string)
    | NotFound
    | Ready(name: string)
    | Only96k(name: string)
    | AudioIssues(name: string, reason: string)

  /** The sample rate the live detector records at, and the fallback probed after it fails. */
  const FullRate: nat := 192000
  const HalfRate: nat := 96000

  /** The fixed texts of the messages. */
  const QueryFailedText := "Error checking audio devices: "
  const NotFoundText :=
    "Scarlett 2i2 not found. Please connect it via USB and check that it's recognized by the system."
  const ReadyText := "Scarlett 2i2 ready: "
  const Only96kText := "Scarlett found but only supports up to 96kHz. Please check USB connection and drivers."
  const AudioIssuesText := "Scarlett found but has audio issues: "

  /**
   * The test of line 90: the lower-cased name mentions "scarlett" or
   * "focusrite", and the device has at least one input channel.
   */
  predicate IsScarlett(d: Device)
  {
    (HasSubstring(Lower(d.name), "scarlett") || HasSubstring(Lower(d.name), "focusrite"))
    && d.maxInputChannels > 0
  }

  /** Device `k` passes the test and no device before it does. */
  predicate IsFirstScarlett(devices: seq<Device>, k: nat)
  {
    k < |devices| && IsScarlett(devices[k]) && forall j :: 0 <= j < k ==> !IsScarlett(devices[j])
  }

  /** The index of the first device that passes the test, if any. */
  function FirstScarlett(devices: seq<Device>): (r: Option<nat>)
    ensures r.None? ==> forall j :: 0 <= j < |devices| ==> !IsScarlett(devices[j])
    ensures r.Some? ==> IsFirstScarlett(devices, r.value)
    decreases |devices|
  {
    if |devices| == 0 then None
    else if IsScarlett(devices[0]) then Some(0)
    else
      match FirstScarlett(devices[1..])
      case None => None
      case Some(k) => Some(k + 1)
  }

  /**
   * The decision of `check_audio_devices`: a failed query is reported; with no
   * matching device the check fails; otherwise only the first match is
   * probed, at 192 kHz, and when that raises, at 96 kHz, to choose the message.
   */
  function CheckDevices(query: Result<seq<Device>, string>, probe: (string, nat) -> Option<string>): DeviceStatus
  {
    match query
    case Failure(reason) => QueryFailed(reason)
    case Success(devices) =>
      match FirstScarlett(devices)
      case None => NotFound
      case Some(k) =>
        var name := devices[k].name;
        match probe(name, FullRate)
        case None => Ready(name)
        case Some(reason) =>
          if probe(name, HalfRate).None? then Only96k(name) else AudioIssues(name, reason)
  }

  /** The `(ok, message)` pair returned for each decision. */
  function Reply(status: DeviceStatus): (r: (bool, string))
    ensures r.0 <==> status.Ready?
  {
    match status
    case QueryFailed(reason) => (false, QueryFailedText + reason)
    case NotFound => (false, NotFoundText)
    case Ready(name) => (true, ReadyText + name)
    case Only96k(_) => (false, Only96kText)
    case AudioIssues(_, reason) => (false, AudioIssuesText + reason)
  }

  /**
   * `check_audio_devices` as the source runs it: scan the list until the
   * first match (`break`), then probe that device.
   */
  method CheckAudioDevices(query: Result<seq<Device>, string>, probe: (string, nat) -> Option<string>)
    returns (ok: bool, message: string)
    ensures (ok, message) == Reply(CheckDevices(query, probe))
  {
    if query.Failure? {
      return false, QueryFailedText + query.error;
    }
    var devices := query.value;
    var scarlett: Option<nat> := None;
    var k := 0;
    while k < |devices|
      invariant 0 <= k <= |devices|
      invariant forall j :: 0 <= j < k ==> !IsScarlett(devices[j])
    {
      var deviceName := Lower(devices[k].name);
      if (HasSubstring(deviceName, "scarlett") || HasSubstring(deviceName, "focusrite"))
         && devices[k].maxInputChannels > 0 {
        scarlett := Some(k);
        break;
      }
      k := k + 1;
    }
    FirstIsUnique(devices, scarlett);
    if scarlett.None? {
      return false, NotFoundText;
    }
    var name := devices[scarlett.value].name;
    var full := probe(name, FullRate);
    if full.None? {
      return true, ReadyText + name;
    }
    var half := probe(name, HalfRate);
    if half.None? {
      return false, Only96kText;
    }
    return false, AudioIssuesText + full.value;
  }

  /** Any index that satisfies the "first match" description is the one `FirstScarlett` finds. */
  lemma FirstIsUnique(devices: seq<Device>, r: Option<nat>)
    requires r.None? ==> forall j :: 0 <= j < |devices| ==> !IsScarlett(devices[j])
    requires r.Some? ==> IsFirstScarlett(devices, r.value)
    ensures FirstScarlett(devices) == r
  {
  }

  /**
   * The check succeeds exactly when the query succeeds, some device matches,
   * and the FIRST matching device accepts 192 kHz; a later match is never
   * tried, and passing only the 96 kHz probe is still a failure.
   */
  lemma ReadyIff(query: Result<seq<Device>, string>, probe: (string, nat) -> Option<string>)
    ensures Reply(CheckDevices(query, probe)).0 <==>
      query.Success? &&
      exists k: nat :: IsFirstScarlett(query.value, k) && probe(query.value[k].name, FullRate).None?
  {
    if query.Success? {
      var devices := query.value;
      if k: nat :| IsFirstScarlett(devices, k) && probe(devices[k].name, FullRate).None? {
        FirstIsUnique(devices, Some(k));
      }
    }
  }

  /**
   * Only the first matching device is ever probed: two probes that agree on
   * it give the same decision, whatever they say about any other device.
   */
  lemma OnlyFirstProbed(devices: seq<Device>, k: nat, probe: (string, nat) -> Option<string>,
                        probe': (string, nat) -> Option<string>)
    requires IsFirstScarlett(devices, k)
    requires probe(devices[k].name, FullRate) == probe'(devices[k].name, FullRate)
    requires probe(devices[k].name, HalfRate) == probe'(devices[k].name, HalfRate)
    ensures CheckDevices(Success(devices), probe) == CheckDevices(Success(devices), probe')
  {
    FirstIsUnique(devices, Some(k));
  }

  /** Without a matching device the check fails with the "not found" message, whatever the probe says. */
  lemma NoScarlettNotFound(devices: seq<Device>, probe: (string, nat) -> Option<string>)
    requires forall j :: 0 <= j < |devices| ==> !IsScarlett(devices[j])
    ensures CheckDevices(Success(devices), probe) == NotFound
  {
    FirstIsUnique(devices, None);
  }

  /**
   * A first match that accepts 96 kHz but not 192 kHz is reported as a
   * failure; when it accepts neither, the message carries the 192 kHz error.
   */
  lemma FallbackIsNotSuccess(devices: seq<Device>, k: nat, probe: (string, nat) -> Option<string>)
    requires IsFirstScarlett(devices, k)
    requires probe(devices[k].name, FullRate).Some?
    ensures !Reply(CheckDevices(Success(devices), probe)).0
    ensures probe(devices[k].name, HalfRate).None? ==> CheckDevices(Success(devices), probe) == Only96k(devices[k].name)
    ensures probe(devices[k].name, HalfRate).Some? ==>
      CheckDevices(Success(devices), probe) == AudioIssues(devices[k].name, probe(devices[k].name, FullRate).value)
  {
    FirstIsUnique(devices, Some(k));
  }
}
