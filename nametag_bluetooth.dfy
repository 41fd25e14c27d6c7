/** The nametag's Bluetooth layer with the radio abstracted away: the
    advertisement filter, the choice of which device to connect to, the
    connection's set of received notifications, the lock-step send/expect
    exchange and the wrapper that retries a whole exchange after a failure.
    Everything the radio or the clock would answer is an input script. */
module NametagBluetooth {
  import opened Common

  const Wildcard: Bytes := [0x2A]   // b"*"

  datatype BtError =
    | Transport(message: string)            // a bluepy exception, re-raised
    | BadCharacteristics(count: nat)        // not exactly one FFF0.FFF1 characteristic
    | BadDescriptors(count: nat)            // not exactly one 0x2902 descriptor
    | NoneFound                             // the scan found no nametag
    | NoneMatch(code: Option<string>)       // no nametag has the code asked for
    | MultipleMatch(devices: seq<ScanDevice>)
    | NeverGotReply(expected: Bytes)          // the expected notification did not come in time

  // ---------------------------------------------------------------------
  // Scanning

  /** One advertisement data element: its AD type and its value as text. */
  datatype AdField = AdField(adType: int, value: string)

  datatype Advertisement = Advertisement(addr: string, rssi: int, fields: seq<AdField>)

  datatype ScanDevice = ScanDevice(address: string, code: string, rssi: int)

  /** `next(v for t, d, v in fields if t == adType)`, which raises
      `StopIteration` (here `None`) when there is no such element. */
  function FirstOfType(fields: seq<AdField>, adType: int): (r: Option<string>)
    ensures r.Some? <==> exists i :: 0 <= i < |fields| && fields[i].adType == adType
    ensures r.Some? ==> exists i :: 0 <= i < |fields| && fields[i].adType == adType
                          && fields[i].value == r.value
                          && forall j :: 0 <= j < i ==> fields[j].adType != adType
  {
    if fields == [] then None
    else if fields[0].adType == adType then Some(fields[0].value)
    else
      var r := FirstOfType(fields[1..], adType);
      assert forall i :: 1 <= i < |fields| ==> fields[i] == fields[1..][i - 1];
      if r.Some? then
        var k :| 0 <= k < |fields[1..]| && fields[1..][k].adType == adType
                 && fields[1..][k].value == r.value
                 && forall j :: 0 <= j < k ==> fields[1..][j].adType != adType;
        assert fields[k + 1] == fields[1..][k];
        r
      else r
  }

  /** Python `s[-n:]`. */
  function LastChars(s: string, n: nat): (r: string)
  {
    if |s| >= n then s[|s| - n..] else s
  }

  /** Python `s[i:j]` for `0 <= i <= j`. */
  function Slice(s: string, i: nat, j: nat): (r: string)
    requires i <= j
    ensures |r| <= j - i
  {
    if |s| <= i then [] else if |s| <= j then s[i..] else s[i..j]
  }

  /** The manufacturer data of a nametag ends in "0222ffff". */
  predicate IsNametag(name: string, mfgr: string)
  {
    name == "CoolLED" && LastChars(mfgr, 8) == "0222ffff"
  }

  /** The device code: the first two bytes of the manufacturer data,
      swapped and upper-cased. */
  function DeviceCode(mfgr: string): (code: string)
    ensures |mfgr| >= 4 ==> code == UpperString(mfgr[2..4] + mfgr[..2])
  {
    UpperString(Slice(mfgr, 2, 4) + Slice(mfgr, 0, 2))
  }

  /** What the scan loop keeps of one advertisement. */
  function DeviceOf(adv: Advertisement): Option<ScanDevice>
  {
    var name := FirstOfType(adv.fields, 9);
    var mfgr := FirstOfType(adv.fields, 255);
    if name.Some? && mfgr.Some? && IsNametag(name.value, mfgr.value)
    then Some(ScanDevice(adv.addr, DeviceCode(mfgr.value), adv.rssi))
    else None
  }

  /** The nametags among the advertisements, in scan order. */
  function Nametags(advs: seq<Advertisement>): (r: seq<ScanDevice>)
    ensures |r| <= |advs|
  {
    if advs == [] then []
    else Nametags(advs[..|advs| - 1])
         + (match DeviceOf(advs[|advs| - 1]) case Some(d) => [d] case None => [])
  }

  /** `scan()`: the loop over what the scanner reports; a scanner
      exception becomes a Bluetooth error. */
  method Scan(scanned: Result<seq<Advertisement>, string>) returns (r: Result<seq<ScanDevice>, BtError>)
    ensures scanned.Err? ==> r == Err(Transport(scanned.error))
    ensures scanned.Ok? ==> r == Ok(Nametags(scanned.value))
  {
    if scanned.Err? {
      return Err(Transport(scanned.error));
    }
    var advs := scanned.value;
    var out: seq<ScanDevice> := [];
    for i := 0 to |advs|
      invariant out == Nametags(advs[..i])
    {
      NametagsStep(advs, i);
      var name := FirstOfType(advs[i].fields, 9);
      var mfgr := FirstOfType(advs[i].fields, 255);
      if name.None? || mfgr.None? {
        continue;
      }
      if IsNametag(name.value, mfgr.value) {
        out := out + [ScanDevice(advs[i].addr, DeviceCode(mfgr.value), advs[i].rssi)];
      }
    }
    assert advs[..|advs|] == advs;
    return Ok(out);
  }

  lemma NametagsStep(advs: seq<Advertisement>, i: nat)
    requires i < |advs|
    ensures Nametags(advs[..i + 1]) == Nametags(advs[..i])
              + (match DeviceOf(advs[i]) case Some(d) => [d] case None => [])
  {
    assert advs[..i + 1][..i] == advs[..i];
  }

  /** The suffix test: `mfgr[-8:] == "0222ffff"` holds exactly when the
      text is at least 8 characters long and ends in "0222ffff". */
  lemma NametagSuffix(mfgr: string)
    ensures LastChars(mfgr, 8) == "0222ffff" <==> |mfgr| >= 8 && mfgr[|mfgr| - 8..] == "0222ffff"
  {
  }

  /** A scanned device is kept exactly when it advertises both a name and
      manufacturer data, the name is "CoolLED" and the data ends in
      "0222ffff"; its code is then the swapped, upper-cased first two bytes. */
  lemma DeviceFilter(adv: Advertisement)
    ensures DeviceOf(adv).Some? <==>
      (exists i :: 0 <= i < |adv.fields| && adv.fields[i].adType == 9)
      && (exists i :: 0 <= i < |adv.fields| && adv.fields[i].adType == 255)
      && FirstOfType(adv.fields, 9) == Some("CoolLED")
      && |FirstOfType(adv.fields, 255).value| >= 8
      && FirstOfType(adv.fields, 255).value[|FirstOfType(adv.fields, 255).value| - 8..] == "0222ffff"
    ensures DeviceOf(adv).Some? ==>
      var mfgr := FirstOfType(adv.fields, 255).value;
      DeviceOf(adv).value == ScanDevice(adv.addr, UpperString(mfgr[2..4] + mfgr[..2]), adv.rssi)
  {
    var m := FirstOfType(adv.fields, 255);
    if m.Some? {
      NametagSuffix(m.value);
    }
  }

  /** Every device in the scan result comes from some advertisement, and
      every nametag advertisement contributes one, in order. */
  lemma {:induction false} NametagsComplete(advs: seq<Advertisement>)
    ensures forall d :: d in Nametags(advs) <==> exists i :: 0 <= i < |advs| && DeviceOf(advs[i]) == Some(d)
  {
    if advs != [] {
      var init := advs[..|advs| - 1];
      NametagsComplete(init);
      forall d ensures d in Nametags(advs) <==> exists i :: 0 <= i < |advs| && DeviceOf(advs[i]) == Some(d) {
        if d in Nametags(advs) && d !in Nametags(init) {
          assert DeviceOf(advs[|advs| - 1]) == Some(d);
        }
        if exists i :: 0 <= i < |advs| && DeviceOf(advs[i]) == Some(d) {
          var i :| 0 <= i < |advs| && DeviceOf(advs[i]) == Some(d);
          if i < |advs| - 1 {
            assert init[i] == advs[i];
          }
        }
      }
    }
  }

  // ---------------------------------------------------------------------
  // Choosing the device

  /** Python truthiness of an optional string. */
  predicate Given(s: Option<string>)
  {
    s.Some? && s.value != ""
  }

  /** `code = code and code.upper()`. */
  function NormalCode(code: Option<string>): (r: Option<string>)
    ensures Given(r) <==> Given(code)
    ensures Given(code) ==> r == Some(UpperString(code.value))
  {
    if Given(code) then Some(UpperString(code.value)) else code
  }

  /** `[d for d in devices if (not code) or d.code == code]`. */
  function Matching(devices: seq<ScanDevice>, code: Option<string>): (r: seq<ScanDevice>)
    ensures forall d :: d in r <==> d in devices && (!Given(code) || d.code == code.value)
    ensures !Given(code) ==> r == devices
  {
    if devices == [] then []
    else
      var d := devices[0];
      var rest := Matching(devices[1..], code);
      assert forall x :: x in devices <==> x == d || x in devices[1..];
      if !Given(code) || d.code == code.value then [d] + rest else rest
  }

  /** The address that `connection()` connects to: a given address is used
      as it is, otherwise the scan must yield exactly one device with the
      (upper-cased) code, or any device when no code is given. */
  function Resolve(address: Option<string>, code: Option<string>,
                   scanned: Result<seq<ScanDevice>, BtError>): Result<string, BtError>
  {
    if Given(address) then Ok(address.value)
    else match scanned
      case Err(e) => Err(e)
      case Ok(devices) =>
        if devices == [] then Err(NoneFound)
        else
          var c := NormalCode(code);
          var matching := Matching(devices, c);
          if matching == [] then Err(NoneMatch(c))
          else if |matching| > 1 then Err(MultipleMatch(matching))
          else Ok(matching[0].address)
  }

  /** A given address skips the scan altogether. */
  lemma ResolveGiven(address: string, code: Option<string>, s1: Result<seq<ScanDevice>, BtError>, s2: Result<seq<ScanDevice>, BtError>)
    requires address != ""
    ensures Resolve(Some(address), code, s1) == Resolve(Some(address), code, s2) == Ok(address)
  {
  }

  /** Without an address the connection succeeds exactly when the scan
      yields exactly one matching device, and that device's address is used;
      an empty scan, no match and several matches are the three errors. */
  lemma ResolveByScan(address: Option<string>, code: Option<string>, devices: seq<ScanDevice>)
    requires !Given(address)
    ensures devices == [] ==> Resolve(address, code, Ok(devices)) == Err(NoneFound)
    ensures devices != [] && Matching(devices, NormalCode(code)) == [] ==>
              Resolve(address, code, Ok(devices)) == Err(NoneMatch(NormalCode(code)))
    ensures devices != [] && |Matching(devices, NormalCode(code))| > 1 ==>
              Resolve(address, code, Ok(devices)).Err? && Resolve(address, code, Ok(devices)).error.MultipleMatch?
    ensures Resolve(address, code, Ok(devices)).Ok? <==> |Matching(devices, NormalCode(code))| == 1
    ensures Resolve(address, code, Ok(devices)).Ok? ==>
              exists d :: d in devices && d.address == Resolve(address, code, Ok(devices)).value
                && (!Given(code) || d.code == UpperString(code.value))
  {
    var c := NormalCode(code);
    var m := Matching(devices, c);
    if devices == [] {
      assert m == [];
    }
    if |m| == 1 {
      assert m[0] in m;
    }
  }

  /** The code comparison ignores the case of the code asked for. */
  lemma ResolveCodeCase(address: Option<string>, code: string, scanned: Result<seq<ScanDevice>, BtError>)
    ensures Resolve(address, Some(code), scanned) == Resolve(address, Some(UpperString(code)), scanned)
  {
    UpperIdempotent(code);
    assert Given(Some(code)) <==> Given(Some(UpperString(code)));
  }

  // ---------------------------------------------------------------------
  // Connection set-up

  datatype Descriptor = Descriptor(uuid: int, handle: int)

  datatype Characteristic = Characteristic(uuid: int, handle: int, descriptors: seq<Descriptor>)

  /** What the connected peripheral reports: the characteristics of
      service 0xFFF0, or the exception that looking it up raised. */
  datatype Peripheral = Peripheral(addr: string, service: Result<seq<Characteristic>, string>)

  /** A connection that is set up: the peer address, the handle of the FFF1
      characteristic and the write that enabled its notifications (the
      descriptor handle and the value written). */
  datatype Link = Link(address: string, handle: int, enable: (int, Bytes))

  /** The value written to the client-configuration descriptor. */
  const EnableNotifications: Bytes := [0x01, 0x00]

  function CharsWithUuid(cs: seq<Characteristic>, uuid: int): (r: seq<Characteristic>)
    ensures forall c :: c in r <==> c in cs && c.uuid == uuid
  {
    if cs == [] then []
    else
      assert forall x :: x in cs <==> x == cs[0] || x in cs[1..];
      (if cs[0].uuid == uuid then [cs[0]] else []) + CharsWithUuid(cs[1..], uuid)
  }

  function DescriptorsWithUuid(ds: seq<Descriptor>, uuid: int): (r: seq<Descriptor>)
    ensures forall d :: d in r <==> d in ds && d.uuid == uuid
  {
    if ds == [] then []
    else
      assert forall x :: x in ds <==> x == ds[0] || x in ds[1..];
      (if ds[0].uuid == uuid then [ds[0]] else []) + DescriptorsWithUuid(ds[1..], uuid)
  }

  /** `Connection.__init__`: exactly one FFF1 characteristic with exactly
      one client-configuration descriptor 0x2902, to which 01 00 is
      written to enable notifications (`cccdWrite` is that write's
      exception, if any). */
  function Setup(p: Peripheral, cccdWrite: Option<string>): Result<Link, BtError>
  {
    match p.service
    case Err(m) => Err(Transport(m))
    case Ok(cs) =>
      var chars := CharsWithUuid(cs, 0xFFF1);
      if |chars| != 1 then Err(BadCharacteristics(|chars|))
      else
        var ds := DescriptorsWithUuid(chars[0].descriptors, 0x2902);
        if |ds| != 1 then Err(BadDescriptors(|ds|))
        else if cccdWrite.Some? then Err(Transport(cccdWrite.value))
        else Ok(Link(p.addr, chars[0].handle, (ds[0].handle, EnableNotifications)))
  }

  /** Set-up succeeds exactly when there is one FFF1 characteristic, it has
      one 0x2902 descriptor and the enabling write succeeds; the link then
      listens on that characteristic's handle, having written 01 00 to that
      descriptor. */
  lemma SetupIff(p: Peripheral, cccdWrite: Option<string>)
    ensures Setup(p, cccdWrite).Ok? <==>
      p.service.Ok? && |CharsWithUuid(p.service.value, 0xFFF1)| == 1
      && |DescriptorsWithUuid(CharsWithUuid(p.service.value, 0xFFF1)[0].descriptors, 0x2902)| == 1
      && cccdWrite.None?
    ensures Setup(p, cccdWrite).Ok? ==>
      var c := CharsWithUuid(p.service.value, 0xFFF1)[0];
      var d := DescriptorsWithUuid(c.descriptors, 0x2902)[0];
      c in p.service.value && c.uuid == 0xFFF1 && d in c.descriptors && d.uuid == 0x2902
      && Setup(p, cccdWrite).value == Link(p.addr, c.handle, (d.handle, [0x01, 0x00]))
  {
    if Setup(p, cccdWrite).Ok? {
      var c := CharsWithUuid(p.service.value, 0xFFF1)[0];
      assert c in CharsWithUuid(p.service.value, 0xFFF1);
      assert DescriptorsWithUuid(c.descriptors, 0x2902)[0] in DescriptorsWithUuid(c.descriptors, 0x2902);
    }
  }

  /** Set-up fails with the count it found when there is not exactly one
      FFF1 characteristic, or not exactly one 0x2902 descriptor on it. */
  lemma SetupCounts(p: Peripheral, cccdWrite: Option<string>)
    requires p.service.Ok?
    ensures |CharsWithUuid(p.service.value, 0xFFF1)| != 1 ==>
              Setup(p, cccdWrite) == Err(BadCharacteristics(|CharsWithUuid(p.service.value, 0xFFF1)|))
    ensures |CharsWithUuid(p.service.value, 0xFFF1)| == 1 ==>
              var n := |DescriptorsWithUuid(CharsWithUuid(p.service.value, 0xFFF1)[0].descriptors, 0x2902)|;
              n != 1 ==> Setup(p, cccdWrite) == Err(BadDescriptors(n))
  {
  }

  // ---------------------------------------------------------------------
  // Set-up error messages

  /** The messages of bluetooth.py:28 and :34 as written. They are plain
      string literals, not f-strings, so the braces and the expression
      inside them stay in the text and the count never appears. */
  function SetupMessageAsWritten(e: BtError): string
    requires e.BadCharacteristics? || e.BadDescriptors?
  {
    if e.BadCharacteristics? then "Found {len(chars)} FFF0.FFF1 characteristics"
    else "Found {len(descriptors)} CCCD entries for FFF0.FFF1"
  }

  /** Whatever set-up found, the message as written reads the same: it
      cannot tell no characteristic from two. */
  lemma SetupMessageHidesCount(m: nat, n: nat)
    ensures SetupMessageAsWritten(BadCharacteristics(m)) == SetupMessageAsWritten(BadCharacteristics(n))
    ensures SetupMessageAsWritten(BadDescriptors(m)) == SetupMessageAsWritten(BadDescriptors(n))
    ensures SetupMessageAsWritten(BadCharacteristics(2)) == "Found {len(chars)} FFF0.FFF1 characteristics"
  {
  }

  /** `str(n)`: the decimal digits of `n`, most significant first. */
  function DecimalText(n: nat): (s: string)
    ensures |s| > 0 && forall i :: 0 <= i < |s| ==> '0' <= s[i] <= '9'
  {
    if n < 10 then [('0' as int + n) as char]
    else DecimalText(n / 10) + [('0' as int + n % 10) as char]
  }

  /** Reads decimal digits back. */
  function DecimalValue(s: string): nat
  {
    if s == [] then 0
    else
      var c := s[|s| - 1];
      DecimalValue(s[..|s| - 1]) * 10 + (if '0' <= c <= '9' then c as int - '0' as int else 0)
  }

  lemma {:induction false} DecimalRoundTrip(n: nat)
    ensures DecimalValue(DecimalText(n)) == n
  {
    var s := DecimalText(n);
    if n < 10 {
      assert s[..|s| - 1] == [];
    } else {
      DecimalRoundTrip(n / 10);
      assert s[..|s| - 1] == DecimalText(n / 10);
    }
  }

  /** The leading run of digits of a text. */
  function LeadingDigits(s: string): (r: string)
    ensures |r| <= |s| && r == s[..|r|]
  {
    if s != [] && '0' <= s[0] <= '9' then [s[0]] + LeadingDigits(s[1..]) else []
  }

  lemma {:induction false} LeadingDigitsOf(d: string, rest: string)
    requires forall i :: 0 <= i < |d| ==> '0' <= d[i] <= '9'
    requires rest != [] && rest[0] == ' '
    ensures LeadingDigits(d + rest) == d
  {
    if d != [] {
      assert (d + rest)[1..] == d[1..] + rest;
      LeadingDigitsOf(d[1..], rest);
    } else {
      assert d + rest == rest;
    }
  }

  /** The messages as the braces show they were meant: f-strings that
      name the count found. */
  function SetupMessage(e: BtError): string
    requires e.BadCharacteristics? || e.BadDescriptors?
  {
    "Found " + SetupDetail(e)
  }

  /** The message after "Found ": the count, then the complaint. */
  function SetupDetail(e: BtError): string
    requires e.BadCharacteristics? || e.BadDescriptors?
  {
    DecimalText(e.count) + SetupComplaint(e)
  }

  function SetupComplaint(e: BtError): (r: string)
    requires e.BadCharacteristics? || e.BadDescriptors?
    ensures r != [] && r[0] == ' '
  {
    if e.BadCharacteristics? then " FFF0.FFF1 characteristics" else " CCCD entries for FFF0.FFF1"
  }

  lemma DropPrefix(a: string, b: string)
    ensures (a + b)[|a|..] == b
  {
  }

  /** The two complaints differ. */
  lemma ComplaintsDiffer(e: BtError, f: BtError)
    requires e.BadCharacteristics? && f.BadDescriptors?
    ensures SetupComplaint(e) != SetupComplaint(f)
  {
    assert SetupComplaint(e)[1] == 'F' && SetupComplaint(f)[1] == 'C';
  }

  /** The count's digits and the complaint can be read off the detail. */
  lemma SetupDetailParts(e: BtError)
    requires e.BadCharacteristics? || e.BadDescriptors?
    ensures DecimalValue(LeadingDigits(SetupDetail(e))) == e.count
    ensures SetupDetail(e)[|DecimalText(e.count)|..] == SetupComplaint(e)
  {
    LeadingDigitsOf(DecimalText(e.count), SetupComplaint(e));
    DecimalRoundTrip(e.count);
    DropPrefix(DecimalText(e.count), SetupComplaint(e));
  }

  /** The intended message tells every failure apart: two set-up errors
      give the same message exactly when they are the same complaint with
      the same count. */
  lemma SetupMessageShowsCount(e: BtError, f: BtError)
    requires e.BadCharacteristics? || e.BadDescriptors?
    requires f.BadCharacteristics? || f.BadDescriptors?
    ensures SetupMessage(e) == SetupMessage(f) <==> e == f
  {
    if SetupMessage(e) == SetupMessage(f) {
      DropPrefix("Found ", SetupDetail(e));
      DropPrefix("Found ", SetupDetail(f));
      assert SetupDetail(e) == SetupDetail(f);
      SetupDetailParts(e);
      SetupDetailParts(f);
      assert SetupComplaint(e) == SetupComplaint(f);
      if e.BadCharacteristics? && f.BadDescriptors? {
        ComplaintsDiffer(e, f);
      } else if f.BadCharacteristics? && e.BadDescriptors? {
        ComplaintsDiffer(f, e);
      }
    }
  }

  /** Two characteristics found: the intended message shows the 2. */
  lemma SetupMessageTwo()
    ensures SetupMessage(BadCharacteristics(2))[6] == '2'
  {
  }

  // ---------------------------------------------------------------------
  // Notifications

  datatype Notification = Notification(handle: int, data: Bytes)

  /** The listener's `handleNotification`, applied to a set. */
  function Notify(received: set<Bytes>, own: int, n: Notification): (r: set<Bytes>)
    ensures n.handle == own ==> r == received + {n.data, Wildcard}
    ensures n.handle != own ==> r == received
  {
    if n.handle == own then received + {n.data, Wildcard} else received
  }

  /** Notifications delivered one after another. */
  function Deliver(received: set<Bytes>, own: int, ns: seq<Notification>): (r: set<Bytes>)
    decreases |ns|
  {
    if ns == [] then received else Deliver(Notify(received, own, ns[0]), own, ns[1..])
  }

  /** The received set is empty or holds the wildcard: any notification on
      our own handle also records b"*", which therefore matches any reply. */
  ghost predicate WildcardRule(received: set<Bytes>)
  {
    received == {} || Wildcard in received
  }

  lemma {:induction false} DeliverFacts(received: set<Bytes>, own: int, ns: seq<Notification>)
    ensures received <= Deliver(received, own, ns)
    ensures WildcardRule(received) ==> WildcardRule(Deliver(received, own, ns))
    ensures (exists i :: 0 <= i < |ns| && ns[i].handle == own) ==> Wildcard in Deliver(received, own, ns)
    ensures (forall i :: 0 <= i < |ns| ==> ns[i].handle != own) ==> Deliver(received, own, ns) == received
    ensures forall x :: x in Deliver(received, own, ns) ==>
              x in received || x == Wildcard || exists i :: 0 <= i < |ns| && ns[i] == Notification(own, x)
    decreases |ns|
  {
    if ns != [] {
      var r1 := Notify(received, own, ns[0]);
      DeliverFacts(r1, own, ns[1..]);
      assert forall i :: 1 <= i < |ns| ==> ns[i] == ns[1..][i - 1];
      if exists i :: 0 <= i < |ns| && ns[i].handle == own {
        var i :| 0 <= i < |ns| && ns[i].handle == own;
        if i > 0 {
          assert ns[1..][i - 1].handle == own;
        }
      }
      forall x | x in Deliver(received, own, ns)
        ensures x in received || x == Wildcard || exists i :: 0 <= i < |ns| && ns[i] == Notification(own, x)
      {
        if x !in received && x != Wildcard && x in r1 {
          assert ns[0] == Notification(own, x);
        } else if x !in r1 && x != Wildcard {
          var i :| 0 <= i < |ns[1..]| && ns[1..][i] == Notification(own, x);
          assert ns[i + 1] == Notification(own, x);
        }
      }
    }
  }

  /** After a clear, b"*" is received exactly when some notification on
      our own handle has arrived. */
  lemma WildcardMeansAny(own: int, ns: seq<Notification>)
    ensures Wildcard in Deliver({}, own, ns) <==> exists i :: 0 <= i < |ns| && ns[i].handle == own
  {
    DeliverFacts({}, own, ns);
  }

  /** `_Listener`: the handle it listens to and the set of payloads
      received since it was last cleared. */
  class Listener {
    const handle: int
    var received: set<Bytes>

    constructor (handle: int)
      ensures this.handle == handle && received == {}
    {
      this.handle := handle;
      received := {};
    }

    /** `handleNotification`: a notification on our handle adds its data
        and the wildcard; any other handle is only warned about. */
    method HandleNotification(h: int, data: Bytes)
      modifies this
      ensures received == Notify(old(received), handle, Notification(h, data))
    {
      if h == handle {
        received := received + {data};
        received := received + {Wildcard};
      }
    }

    method Clear()
      modifies this
      ensures received == {}
    {
      received := {};
    }
  }

  // ---------------------------------------------------------------------
  // The send/expect exchange

  /** The answers of the radio and the clock during one exchange, each
      consumed from the front: the outcome of each characteristic write
      (an exception message or `None`), each clock reading, and the result
      of each wait for notifications. */
  datatype Env = Env(writes: seq<Option<string>>, clock: seq<int>,
                     waits: seq<Result<seq<Notification>, string>>)

  datatype Outcome =
    | Done
    | Failed(error: BtError)
    | OutOfScript   // the scripted answers ran out before the exchange ended

  /** What an exchange leaves behind: its outcome, the received set, the
      payloads written to the characteristic so far and the unused answers. */
  datatype Run = Run(outcome: Outcome, received: set<Bytes>, sent: seq<Bytes>, env: Env)

  /** `while expected not in received`: each round reads the clock, gives
      up once more than `timeout` has elapsed since `start`, and otherwise
      waits for notifications. */
  function ExpectLoop(expected: Bytes, start: int, timeout: int, own: int,
                      received: set<Bytes>, sent: seq<Bytes>, env: Env): (r: Run)
    decreases |env.clock|
  {
    if expected in received then Run(Done, received, sent, env)
    else if env.clock == [] then Run(OutOfScript, received, sent, env)
    else
      var elapsed := env.clock[0] - start;
      var env1 := env.(clock := env.clock[1..]);
      if elapsed > timeout then Run(Failed(NeverGotReply(expected)), received, sent, env1)
      else if env1.waits == [] then Run(OutOfScript, received, sent, env1)
      else match env1.waits[0]
        case Err(m) => Run(Failed(Transport(m)), received, sent, env1.(waits := env1.waits[1..]))
        case Ok(ns) =>
          ExpectLoop(expected, start, timeout, own, Deliver(received, own, ns), sent, env1.(waits := env1.waits[1..]))
  }

  /** One (send, expected) pair: a non-empty `send` clears the received set
      and is written; a non-empty `expected` is then waited for. */
  function PairStep(send: Bytes, expected: Bytes, timeout: int, own: int,
                    received: set<Bytes>, sent: seq<Bytes>, env: Env): (r: Run)
  {
    var written :=
      if send == [] then Run(Done, received, sent, env)
      else if env.writes == [] then Run(OutOfScript, {}, sent, env)
      else if env.writes[0].Some? then Run(Failed(Transport(env.writes[0].value)), {}, sent, env.(writes := env.writes[1..]))
      else Run(Done, {}, sent + [send], env.(writes := env.writes[1..]));
    if written.outcome != Done || expected == [] then written
    else if written.env.clock == [] then written.(outcome := OutOfScript)
    else
      ExpectLoop(expected, written.env.clock[0], timeout, own, written.received, written.sent,
                 written.env.(clock := written.env.clock[1..]))
  }

  /** `send_and_expect(pairs=...)`: the pairs strictly in order, stopping at
      the first failure. */
  function Exchange(pairs: seq<(Bytes, Bytes)>, timeout: int, own: int,
                    received: set<Bytes>, sent: seq<Bytes>, env: Env): (r: Run)
    decreases |pairs|
  {
    if pairs == [] then Run(Done, received, sent, env)
    else
      var r1 := PairStep(pairs[0].0, pairs[0].1, timeout, own, received, sent, env);
      if r1.outcome != Done then r1
      else Exchange(pairs[1..], timeout, own, r1.received, r1.sent, r1.env)
  }

  /** A run that stopped, or the rest of the exchange after it. */
  function Then(r: Run, pairs: seq<(Bytes, Bytes)>, timeout: int, own: int): Run
  {
    if r.outcome != Done then r else Exchange(pairs, timeout, own, r.received, r.sent, r.env)
  }

  /** The non-empty sends of the pairs, in order. */
  function Sends(pairs: seq<(Bytes, Bytes)>): (r: seq<Bytes>)
  {
    if pairs == [] then [] else (if pairs[0].0 == [] then [] else [pairs[0].0]) + Sends(pairs[1..])
  }

  /** A single expectation succeeds only once it is in the received set,
      never writes anything, and a timeout is reported only after a clock
      reading more than `timeout` past the start. */
  lemma {:induction false} ExpectLoopFacts(expected: Bytes, start: int, timeout: int, own: int,
                                           received: set<Bytes>, sent: seq<Bytes>, env: Env)
    ensures var r := ExpectLoop(expected, start, timeout, own, received, sent, env);
      && r.sent == sent && received <= r.received
      && (r.outcome == Done ==> expected in r.received)
      && (r.outcome == Failed(NeverGotReply(expected)) ==> exists i :: 0 <= i < |env.clock| && env.clock[i] - start > timeout)
      && (WildcardRule(received) ==> WildcardRule(r.received))
    decreases |env.clock|
  {
    if expected !in received && env.clock != [] {
      var env1 := env.(clock := env.clock[1..]);
      if env.clock[0] - start <= timeout && env1.waits != [] && env1.waits[0].Ok? {
        var ns := env1.waits[0].value;
        DeliverFacts(received, own, ns);
        ExpectLoopFacts(expected, start, timeout, own, Deliver(received, own, ns), sent, env1.(waits := env1.waits[1..]));
        var r := ExpectLoop(expected, start, timeout, own, received, sent, env);
        if r.outcome == Failed(NeverGotReply(expected)) {
          var i :| 0 <= i < |env.clock[1..]| && env.clock[1..][i] - start > timeout;
          assert env.clock[i + 1] == env.clock[1..][i];
        }
      }
    }
  }

  /** A completed exchange wrote exactly the non-empty sends, in order; a
      pair whose send is empty writes nothing. */
  lemma {:induction false} ExchangeWrites(pairs: seq<(Bytes, Bytes)>, timeout: int, own: int,
                                          received: set<Bytes>, sent: seq<Bytes>, env: Env)
    ensures Exchange(pairs, timeout, own, received, sent, env).outcome == Done ==>
              Exchange(pairs, timeout, own, received, sent, env).sent == sent + Sends(pairs)
    decreases |pairs|
  {
    if pairs != [] {
      var r1 := PairStep(pairs[0].0, pairs[0].1, timeout, own, received, sent, env);
      ExchangeWrites(pairs[1..], timeout, own, r1.received, r1.sent, r1.env);
      if r1.outcome == Done {
        var written :=
          if pairs[0].0 == [] then Run(Done, received, sent, env)
          else Run(Done, {}, sent + [pairs[0].0], env.(writes := env.writes[1..]));
        if pairs[0].1 != [] {
          ExpectLoopFacts(pairs[0].1, written.env.clock[0], timeout, own, written.received, written.sent,
                          written.env.(clock := written.env.clock[1..]));
        }
        assert r1.sent == sent + (if pairs[0].0 == [] then [] else [pairs[0].0]);
      }
    }
  }

  /** After every pair the received set is empty or holds the wildcard, and
      a pair with an expectation completes only with it received. */
  lemma PairStepFacts(send: Bytes, expected: Bytes, timeout: int, own: int,
                      received: set<Bytes>, sent: seq<Bytes>, env: Env)
    requires WildcardRule(received)
    ensures var r := PairStep(send, expected, timeout, own, received, sent, env);
      && WildcardRule(r.received)
      && (r.outcome == Done && expected != [] ==> expected in r.received)
      && (r.outcome == Done && expected == [] && send != [] ==> r.received == {})
  {
    var written :=
      if send == [] then Run(Done, received, sent, env)
      else if env.writes == [] then Run(OutOfScript, {}, sent, env)
      else if env.writes[0].Some? then Run(Failed(Transport(env.writes[0].value)), {}, sent, env.(writes := env.writes[1..]))
      else Run(Done, {}, sent + [send], env.(writes := env.writes[1..]));
    if written.outcome == Done && expected != [] && written.env.clock != [] {
      ExpectLoopFacts(expected, written.env.clock[0], timeout, own, written.received, written.sent,
                      written.env.(clock := written.env.clock[1..]));
    }
  }

  /** `Connection`: a set-up link, its listener, and the payloads written
      to the FFF1 characteristic so far. */
  class Connection {
    const address: string
    const handle: int
    const listener: Listener
    var sent: seq<Bytes>

    constructor (link: Link)
      ensures address == link.address && handle == link.handle
      ensures fresh(listener) && listener.handle == link.handle && listener.received == {}
      ensures sent == []
    {
      address := link.address;
      handle := link.handle;
      listener := new Listener(link.handle);
      sent := [];
    }

    /** `send_and_expect(pairs=..., timeout=...)` against the scripted
        radio and clock `env`. */
    method SendAndExpect(pairs: seq<(Bytes, Bytes)>, timeout: int, env: Env) returns (outcome: Outcome, rest: Env)
      requires listener.handle == handle
      modifies this, listener
      ensures Run(outcome, listener.received, sent, rest)
              == Exchange(pairs, timeout, handle, old(listener.received), old(sent), env)
    {
      ghost var goal := Exchange(pairs, timeout, handle, listener.received, sent, env);
      var e := env;
      for i := 0 to |pairs|
        invariant goal == Exchange(pairs[i..], timeout, handle, listener.received, sent, e)
      {
        var (send, expected) := pairs[i];
        assert pairs[i..][1..] == pairs[i + 1..];
        if send != [] {
          listener.Clear();
          if e.writes == [] {
            return OutOfScript, e;
          }
          var failure := e.writes[0];
          e := e.(writes := e.writes[1..]);
          if failure.Some? {
            return Failed(Transport(failure.value)), e;
          }
          sent := sent + [send];
        }
        if expected != [] {
          if e.clock == [] {
            return OutOfScript, e;
          }
          var start := e.clock[0];
          e := e.(clock := e.clock[1..]);
          while expected !in listener.received
            invariant goal == Then(ExpectLoop(expected, start, timeout, handle, listener.received, sent, e),
                                   pairs[i + 1..], timeout, handle)
            decreases |e.clock|
          {
            if e.clock == [] {
              return OutOfScript, e;
            }
            var elapsed := e.clock[0] - start;
            e := e.(clock := e.clock[1..]);
            if elapsed > timeout {
              return Failed(NeverGotReply(expected)), e;
            }
            if e.waits == [] {
              return OutOfScript, e;
            }
            var wait := e.waits[0];
            e := e.(waits := e.waits[1..]);
            if wait.Err? {
              return Failed(Transport(wait.error)), e;
            }
            var ns := wait.value;
            ghost var before := listener.received;
            ghost var sentBefore := sent;
            for k := 0 to |ns|
              invariant Deliver(before, handle, ns) == Deliver(listener.received, handle, ns[k..])
              invariant sent == sentBefore
            {
              assert ns[k..][1..] == ns[k + 1..];
              listener.HandleNotification(ns[k].handle, ns[k].data);
            }
          }
        }
      }
      return Done, e;
    }
  }

  // ---------------------------------------------------------------------
  // Retrying the whole exchange

  /** What one connection attempt of the retry wrapper meets: the scan
      result (used only when no address is known yet), the set-up result
      and, once connected, the outcome of the exchange on that connection
      together with the clock reading taken after a failure. */
  datatype Attempt = Attempt(scan: Result<seq<ScanDevice>, BtError>,
                             setup: Option<BtError>,
                             exchange: Option<BtError>,
                             clock: int)

  datatype RetryOutcome = Sent | GaveUp(error: BtError) | AttemptsExhausted

  /** Python truthiness of the optional timeout: `None` and 0 mean "retry
      for ever". */
  predicate TimeoutSet(timeout: Option<int>)
  {
    timeout.Some? && timeout.value != 0
  }

  /** `self._timeout and elapsed > self._timeout`, for the clock reading
      taken after the attempt failed. */
  predicate TimedOut(timeout: Option<int>, start: int, a: Attempt)
  {
    TimeoutSet(timeout) && a.clock - start > timeout.value
  }

  /** `e` is an error attempt `a` can raise: a failed resolution (a given
      address never fails), a failed set-up or a failed exchange. */
  predicate Raises(code: Option<string>, a: Attempt, e: BtError)
  {
    Resolve(None, code, a.scan) == Err(e) || a.setup == Some(e) || a.exchange == Some(e)
  }

  /** The retry wrapper's connection state: the live connection's address
      (if any) and the address pinned in the connect arguments. */
  datatype Wiring = Wiring(connection: Option<string>, address: Option<string>)

  /** `_connect_if_necessary` on values: the error it raises, if any, and
      the link after it. */
  function Connect(code: Option<string>, link: Wiring, a: Attempt): (Option<BtError>, Wiring)
  {
    if link.connection.Some? then (None, link)
    else
      var r := Resolve(link.address, code, a.scan);
      if r.Err? then (Some(r.error), link)
      else if a.setup.Some? then (a.setup, link)
      else (None, Wiring(Some(r.value), Some(r.value)))
  }

  /** One pass of the `while True` body up to its `return` or its handler:
      the error caught, whether a connection was there to hand the pairs
      to, and the link after it (a caught error drops the connection). */
  datatype Try = Try(error: Option<BtError>, connected: bool, link: Wiring)

  function TryOnce(code: Option<string>, link: Wiring, a: Attempt): Try
  {
    var (err, l) := Connect(code, link, a);
    if err.Some? then Try(err, false, l.(connection := None))
    else if a.exchange.Some? then Try(a.exchange, true, l.(connection := None))
    else Try(None, true, l)
  }

  /** The whole retry loop on values: how it ends, the error caught by each
      failed attempt in turn, the number of attempts that handed the pairs
      to a connection, and the final link. */
  datatype RetryRun = RetryRun(outcome: RetryOutcome, errors: seq<BtError>, connected: nat, link: Wiring)

  function Retry(timeout: Option<int>, code: Option<string>, start: int, link: Wiring, attempts: seq<Attempt>): RetryRun
    decreases |attempts|
  {
    if attempts == [] then RetryRun(AttemptsExhausted, [], 0, link)
    else
      var t := TryOnce(code, link, attempts[0]);
      var c := if t.connected then 1 else 0;
      if t.error.None? then RetryRun(Sent, [], c, t.link)
      else if TimedOut(timeout, start, attempts[0]) then RetryRun(GaveUp(t.error.value), [t.error.value], c, t.link)
      else
        var rest := Retry(timeout, code, start, t.link, attempts[1..]);
        RetryRun(rest.outcome, [t.error.value] + rest.errors, c + rest.connected, rest.link)
  }

  /** A resolution that fails fails as a scan would: a given address never
      fails. */
  lemma ResolveErr(address: Option<string>, code: Option<string>, scanned: Result<seq<ScanDevice>, BtError>)
    requires Resolve(address, code, scanned).Err?
    ensures Resolve(None, code, scanned) == Resolve(address, code, scanned)
  {
  }

  /** The error a single attempt catches is one the attempt raises, and an
      attempt that catches none handed the pairs to a live connection whose
      exchange succeeded. */
  lemma TryOnceFacts(code: Option<string>, link: Wiring, a: Attempt)
    ensures var t := TryOnce(code, link, a);
      (t.error.Some? ==> Raises(code, a, t.error.value) && t.link.connection.None?) &&
      (t.error.None? ==> t.connected && a.exchange.None? && t.link.connection.Some?) &&
      (Given(link.address) ==> t.link.address == link.address)
  {
    if link.connection.None? {
      var r := Resolve(link.address, code, a.scan);
      if r.Err? {
        ResolveErr(link.address, code, a.scan);
      }
    }
  }

  /** How the retry loop ends. Every failed attempt before the last one
      tried caught an error it raises and was not past the timeout; the
      loop returns after the first attempt whose exchange succeeds, gives
      up with the error of the first failure past a set timeout, and
      otherwise runs out of attempts. Each failed attempt is one close and
      one warning, and at most one attempt more than those failed handed
      the pairs to a connection. */
  lemma {:induction false} RetryFacts(timeout: Option<int>, code: Option<string>, start: int, link: Wiring, attempts: seq<Attempt>)
    ensures var R := Retry(timeout, code, start, link, attempts);
      |R.errors| <= |attempts| &&
      R.connected <= |R.errors| + 1 &&
      (forall j :: 0 <= j < |R.errors| ==> Raises(code, attempts[j], R.errors[j])) &&
      (forall j :: 0 <= j < |R.errors| ==>
         (TimedOut(timeout, start, attempts[j]) <==> R.outcome.GaveUp? && j == |R.errors| - 1)) &&
      (R.outcome == Sent ==>
         |R.errors| < |attempts| && attempts[|R.errors|].exchange.None? && R.link.connection.Some?) &&
      (R.outcome.GaveUp? ==> 0 < |R.errors| && R.outcome.error == R.errors[|R.errors| - 1]) &&
      (R.outcome == AttemptsExhausted ==> |R.errors| == |attempts|) &&
      (R.outcome != Sent && attempts != [] ==> R.link.connection.None?) &&
      (Given(link.address) ==> R.link.address == link.address)
    decreases |attempts|
  {
    if attempts != [] {
      var t := TryOnce(code, link, attempts[0]);
      TryOnceFacts(code, link, attempts[0]);
      if t.error.Some? && !TimedOut(timeout, start, attempts[0]) {
        RetryFacts(timeout, code, start, t.link, attempts[1..]);
        var rest := Retry(timeout, code, start, t.link, attempts[1..]);
        var R := Retry(timeout, code, start, link, attempts);
        assert R.errors == [t.error.value] + rest.errors;
        forall j | 1 <= j < |R.errors|
          ensures Raises(code, attempts[j], R.errors[j])
          ensures TimedOut(timeout, start, attempts[j]) <==> R.outcome.GaveUp? && j == |R.errors| - 1
        {
          assert R.errors[j] == rest.errors[j - 1] && attempts[j] == attempts[1..][j - 1];
        }
        if R.outcome == Sent {
          assert attempts[|R.errors|] == attempts[1..][|rest.errors|];
        }
      }
    }
  }

  /** One attempt of the loop that starts at attempt `i`: it returns,
      gives up or goes on to attempt `i + 1` from the link `TryOnce`
      leaves. */
  lemma RetryStep(timeout: Option<int>, code: Option<string>, start: int, w: Wiring, attempts: seq<Attempt>, i: int)
    requires 0 <= i < |attempts|
    ensures var t := TryOnce(code, w, attempts[i]);
      var R := Retry(timeout, code, start, w, attempts[i..]);
      var c := if t.connected then 1 else 0;
      if t.error.None? then R == RetryRun(Sent, [], c, t.link)
      else if TimedOut(timeout, start, attempts[i]) then R == RetryRun(GaveUp(t.error.value), [t.error.value], c, t.link)
      else
        var rest := Retry(timeout, code, start, t.link, attempts[i + 1..]);
        R == RetryRun(rest.outcome, [t.error.value] + rest.errors, c + rest.connected, rest.link)
  {
    assert attempts[i..][0] == attempts[i] && attempts[i..][1..] == attempts[i + 1..];
  }

  /** The loop's bookkeeping across one attempt: if the run from attempt
      `i` completes `goal` after the errors `errs` and `n` connections so
      far, then the attempt either ends it as `goal` says or leaves the run
      from attempt `i + 1` to complete it. */
  lemma RetryAdvance(timeout: Option<int>, code: Option<string>, start: int, w: Wiring, attempts: seq<Attempt>, i: int,
                     errs: seq<BtError>, n: nat, goal: RetryRun)
    requires 0 <= i < |attempts|
    requires var R := Retry(timeout, code, start, w, attempts[i..]);
      goal == RetryRun(R.outcome, errs + R.errors, n + R.connected, R.link)
    ensures var t := TryOnce(code, w, attempts[i]);
      var c := if t.connected then 1 else 0;
      if t.error.None? then goal == RetryRun(Sent, errs, n + c, t.link)
      else if TimedOut(timeout, start, attempts[i]) then goal == RetryRun(GaveUp(t.error.value), errs + [t.error.value], n + c, t.link)
      else
        var R := Retry(timeout, code, start, t.link, attempts[i + 1..]);
        goal == RetryRun(R.outcome, (errs + [t.error.value]) + R.errors, (n + c) + R.connected, R.link)
  {
    RetryStep(timeout, code, start, w, attempts, i);
    var t := TryOnce(code, w, attempts[i]);
    if t.error.Some? {
      var R := Retry(timeout, code, start, t.link, attempts[i + 1..]);
      assert errs + ([t.error.value] + R.errors) == (errs + [t.error.value]) + R.errors;
    }
  }

  /** With no timeout set (`None` or 0) the wrapper never gives up. */
  lemma {:induction false} RetryForever(timeout: Option<int>, code: Option<string>, start: int, link: Wiring, attempts: seq<Attempt>)
    requires !TimeoutSet(timeout)
    ensures !Retry(timeout, code, start, link, attempts).outcome.GaveUp?
  {
    RetryFacts(timeout, code, start, link, attempts);
  }

  /** `RetryConnection`: the live connection's address (if any), the
      address pinned in the connect arguments, and what it has done so far:
      the pair lists handed to connections, and the number of times it
      closed its exit stack and logged a failure. */
  class RetryConnection {
    const timeout: Option<int>
    const code: Option<string>
    var connection: Option<string>
    var address: Option<string>
    var exchanges: seq<seq<(Bytes, Bytes)>>
    var closes: nat
    var warnings: nat

    /** The first connection attempt; its failure is logged, not raised. */
    constructor (timeout: Option<int>, address: Option<string>, code: Option<string>, first: Attempt)
      ensures this.timeout == timeout && this.code == code && exchanges == [] && closes == 0
      ensures var r := Resolve(address, code, first.scan);
        if r.Ok? && first.setup.None?
        then connection == Some(r.value) && this.address == Some(r.value) && warnings == 0
        else connection.None? && this.address == address && warnings == 1
    {
      this.timeout := timeout;
      this.code := code;
      this.connection := None;
      this.address := address;
      exchanges := [];
      closes := 0;
      warnings := 0;
      new;
      var err := ConnectIfNecessary(first);
      if err.Some? {
        warnings := warnings + 1;
      }
    }

    /** `_connect_if_necessary`: connect when there is no live connection
        and pin the address that was connected to. */
    method ConnectIfNecessary(a: Attempt) returns (err: Option<BtError>)
      modifies this
      ensures exchanges == old(exchanges) && closes == old(closes) && warnings == old(warnings)
      ensures old(connection).Some? ==> err.None? && connection == old(connection) && address == old(address)
      ensures old(connection).None? ==>
        var r := Resolve(old(address), code, a.scan);
        if r.Err? then err == Some(r.error) && connection.None? && address == old(address)
        else if a.setup.Some? then err == a.setup && connection.None? && address == old(address)
        else err.None? && connection == Some(r.value) && address == Some(r.value)
      ensures (err, Wiring(connection, address)) == Connect(code, Wiring(old(connection), old(address)), a)
    {
      if connection.Some? {
        return None;
      }
      var r := Resolve(address, code, a.scan);
      if r.Err? {
        return Some(r.error);
      }
      if a.setup.Some? {
        return a.setup;
      }
      connection := Some(r.value);
      address := Some(r.value);
      return None;
    }

    /** `send_and_expect(pairs=...)`: connect if necessary and run the
        whole exchange; on a Bluetooth error drop the connection, close the
        exit stack and log a warning, then start again from the first pair,
        unless a timeout is set and more than that has elapsed since
        `start`. The outcome, the final connection state, the number of
        closes and warnings and the exchanges handed out are those of
        `Retry`, whose properties `RetryFacts` states. */
    method SendAndExpect(pairs: seq<(Bytes, Bytes)>, start: int, attempts: seq<Attempt>) returns (r: RetryOutcome)
      modifies this
      ensures var R := Retry(timeout, code, start, Wiring(old(connection), old(address)), attempts);
        r == R.outcome && Wiring(connection, address) == R.link &&
        closes == old(closes) + |R.errors| && warnings == old(warnings) + |R.errors| &&
        |exchanges| == |old(exchanges)| + R.connected
      ensures forall k :: |old(exchanges)| <= k < |exchanges| ==> exchanges[k] == pairs
      ensures exchanges[..|old(exchanges)|] == old(exchanges)
    {
      ghost var goal := Retry(timeout, code, start, Wiring(connection, address), attempts);
      ghost var errs: seq<BtError> := [];
      for i := 0 to |attempts|
        invariant |old(exchanges)| <= |exchanges| && exchanges[..|old(exchanges)|] == old(exchanges)
        invariant var R := Retry(timeout, code, start, Wiring(connection, address), attempts[i..]);
          goal == RetryRun(R.outcome, errs + R.errors, |exchanges| - |old(exchanges)| + R.connected, R.link)
        invariant closes == old(closes) + |errs| && warnings == old(warnings) + |errs|
        invariant forall k :: |old(exchanges)| <= k < |exchanges| ==> exchanges[k] == pairs
      {
        RetryAdvance(timeout, code, start, Wiring(connection, address), attempts, i,
                     errs, |exchanges| - |old(exchanges)|, goal);
        var err := TryAttempt(pairs, attempts[i]);
        if err.None? {
          return Sent;
        }
        errs := errs + [err.value];
        var elapsed := attempts[i].clock - start;
        if TimeoutSet(timeout) && elapsed > timeout.value {
          return GaveUp(err.value);
        }
      }
      return AttemptsExhausted;
    }

    /** The body of the `while True` loop up to its `return`, and the part
        of the handler every failure runs: drop the connection, close the
        exit stack and log a warning. */
    method TryAttempt(pairs: seq<(Bytes, Bytes)>, a: Attempt) returns (err: Option<BtError>)
      modifies this
      ensures var t := TryOnce(code, Wiring(old(connection), old(address)), a);
        err == t.error && Wiring(connection, address) == t.link &&
        exchanges == old(exchanges) + (if t.connected then [pairs] else []) &&
        closes == old(closes) + (if err.Some? then 1 else 0) &&
        warnings == old(warnings) + (if err.Some? then 1 else 0)
    {
      err := ConnectIfNecessary(a);
      if err.None? {
        exchanges := exchanges + [pairs];
        err := a.exchange;
        if err.None? {
          return;
        }
      }
      connection := None;
      closes := closes + 1;
      warnings := warnings + 1;
    }
  }

  /** Once an address is pinned, every later connection goes to it, whatever
      a scan would say. */
  lemma PinnedAddress(address: string, code: Option<string>, scanned: Result<seq<ScanDevice>, BtError>)
    requires address != ""
    ensures Resolve(Some(address), code, scanned) == Ok(address)
  {
  }
}
