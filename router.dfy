/** The request router of the outlet's web server as pure functions: which
    command a request line selects, which pin writes it issues, the pin levels
    it leaves and the page it renders.  The class in device.dfy is proved to
    behave exactly as these functions say. */
module Router {
  import opened Text

  /** A digital pin level as Pin.value() reads or writes it. */
  type Level = x: int | 0 <= x <= 1

  // Response text, as the firmware builds it.
  const TITLE := "Outlet TC"
  const HEADER := "HTTP/1.0 200 OK\r\n\r\n"
  const HEAD := "<html><head><title>" + TITLE + "</title></head><body>"
  const FOOTER := "<p>Usage:</p><p>Switch on: <a href=\"/on\">/on</a></p><p>Switch off: <a href=\"/off\">/off</a></p><p>Power cycle: <a href=\"/cycle\">/cycle</a></p><p>Status: <a href=\"/status\">/status</a></p></body></html>"
  const SWITCHED_ON := "<p>Switched Relais ON</p><hr>"
  const SWITCHED_OFF := "<p>Switched Relais OFF</p><hr>"
  /** /cycle's first fragment: the OFF message without the rule. */
  const CYCLE_OFF := "<p>Switched Relais OFF</p>"

  // The request-line prefixes, tested in this order.
  const ON_PREFIX: seq<byte> := Bytes("GET /on")
  const OFF_PREFIX: seq<byte> := Bytes("GET /off")
  const CYCLE_PREFIX: seq<byte> := Bytes("GET /cycle")
  const STATUS_PREFIX: seq<byte> := Bytes("GET /status")

  /** The branch of the if/elif chain a request line takes. */
  datatype Command = On | Off | Cycle | Status | Unknown

  /** The ordered prefix dispatch: each test compares req[:n] with a literal of length n. */
  function Classify(req: seq<byte>): Command
  {
    if Take(req, 7) == ON_PREFIX then On
    else if Take(req, 8) == OFF_PREFIX then Off
    else if Take(req, 10) == CYCLE_PREFIX then Cycle
    else if Take(req, 11) == STATUS_PREFIX then Status
    else Unknown
  }

  /** The two output pins the router drives: the relay (pin 12) and the green LED (pin 13). */
  datatype Pin = Relay | GreenLed

  /** One call pin.value(level). */
  datatype PinWrite = PinWrite(pin: Pin, level: Level)

  /** The three pin levels: relay (active-high), green LED (active-low) and button (pin 0, input). */
  datatype Pins = Pins(relay: Level, led: Level, button: Level)

  /** The levels at boot: relay and LED pins are created with value 1; the button is whatever the input reads. */
  function Boot(button: Level): Pins
  {
    Pins(1, 1, button)
  }

  /** The pin writes a command issues, in order. */
  function Writes(cmd: Command): seq<PinWrite>
  {
    match cmd
    case On => [PinWrite(Relay, 1), PinWrite(GreenLed, 1)]
    case Off => [PinWrite(Relay, 0), PinWrite(GreenLed, 0)]
    case Cycle => [PinWrite(Relay, 0), PinWrite(GreenLed, 0), PinWrite(Relay, 1), PinWrite(GreenLed, 1)]
    case Status => []
    case Unknown => []
  }

  /** The pin levels after one write. */
  function Write(p: Pins, x: PinWrite): Pins
  {
    match x.pin
    case Relay => p.(relay := x.level)
    case GreenLed => p.(led := x.level)
  }

  /** The pin levels after a sequence of writes. */
  function Apply(p: Pins, w: seq<PinWrite>): Pins
    decreases |w|
  {
    if w == [] then p else Apply(Write(p, w[0]), w[1..])
  }

  /** Writing in two batches is writing the concatenation. */
  lemma {:induction false} ApplyConcat(p: Pins, v: seq<PinWrite>, w: seq<PinWrite>)
    ensures Apply(p, v + w) == Apply(Apply(p, v), w)
    decreases |v|
  {
    if v != [] {
      assert (v + w)[0] == v[0] && (v + w)[1..] == v[1..] + w;
      ApplyConcat(Write(p, v[0]), v[1..], w);
    } else {
      assert v + w == w;
    }
  }

  /** Writing the relay and then the LED pin with one level sets both to it. */
  lemma ApplyPair(p: Pins, v: Level)
    ensures Apply(p, [PinWrite(Relay, v), PinWrite(GreenLed, v)]) == p.(relay := v, led := v)
  {
    var w := [PinWrite(Relay, v), PinWrite(GreenLed, v)];
    assert w[1..] == [PinWrite(GreenLed, v)] && w[1..][1..] == [];
    assert Apply(p, w) == Apply(Write(p, w[0]), w[1..]);
    assert Apply(Write(p, w[0]), w[1..]) == Write(Write(p, w[0]), w[1]);
  }

  /** The pin levels after the router has handled req. */
  function Next(p: Pins, req: seq<byte>): Pins
  {
    Apply(p, Writes(Classify(req)))
  }

  /** The pin levels after a sequence of requests, one per connection. */
  function Run(p: Pins, reqs: seq<seq<byte>>): Pins
    decreases |reqs|
  {
    if reqs == [] then p else Run(Next(p, reqs[0]), reqs[1..])
  }

  // The status words. Each is 'undefined' for a pin value other than 0 or 1.
  function RelayText(v: int): string
  {
    if v == 1 then "ON" else if v == 0 then "OFF" else "undefined"
  }

  /** The green LED is active-low: pin level 0 lights it. */
  function LedText(v: int): string
  {
    if v == 1 then "OFF" else if v == 0 then "ON" else "undefined"
  }

  /** The button is active-low: pin level 0 means pressed. */
  function ButtonText(v: int): string
  {
    if v == 1 then "NOT PRESSED" else if v == 0 then "PRESSED" else "undefined"
  }

  /** One paragraph of the status page: its opening text, a value and the closing tag. */
  function Para(opening: string, value: string): string
  {
    opening + value + "</p>"
  }

  /** The /status page fragment; freeMem is gc.mem_free() and uptime is time.time() - startuptime. */
  function StatusFragment(p: Pins, freeMem: int, uptime: int): string
  {
    Para("<p>Relais Status is: ", RelayText(p.relay))
    + Para("<p>Green LED Status is: ", LedText(p.led))
    + Para("<p>Button Status is: ", ButtonText(p.button))
    + Para("<p>Free Mem is: ", Decimal(freeMem))
    + Para("<p>Uptime in sec: ", Decimal(uptime)) + "<hr>"
  }

  /** What a command appends between the head and the usage footer. */
  function Fragment(cmd: Command, p: Pins, freeMem: int, uptime: int): string
  {
    match cmd
    case On => SWITCHED_ON
    case Off => SWITCHED_OFF
    case Cycle => CYCLE_OFF + SWITCHED_ON
    case Status => StatusFragment(p, freeMem, uptime)
    case Unknown => ""
  }

  /** The HTML page for req, rendered from the pin levels p it finds. */
  function Body(p: Pins, req: seq<byte>, freeMem: int, uptime: int): string
  {
    HEAD + Fragment(Classify(req), p, freeMem, uptime) + FOOTER
  }

  /** What is written back to the client. */
  function Response(p: Pins, req: seq<byte>, freeMem: int, uptime: int): string
  {
    HEADER + Body(p, req, freeMem, uptime)
  }

  // ---------------------------------------------------------------------------
  // Dispatch

  lemma PrefixLengths()
    ensures |ON_PREFIX| == 7 && |OFF_PREFIX| == 8 && |CYCLE_PREFIX| == 10 && |STATUS_PREFIX| == 11
  {
  }

  /** No request line starts with two of the four prefixes, so the order of the tests never decides a branch. */
  lemma PrefixesExclusive(req: seq<byte>)
    ensures !(ON_PREFIX <= req && OFF_PREFIX <= req)
    ensures !(ON_PREFIX <= req && CYCLE_PREFIX <= req)
    ensures !(ON_PREFIX <= req && STATUS_PREFIX <= req)
    ensures !(OFF_PREFIX <= req && CYCLE_PREFIX <= req)
    ensures !(OFF_PREFIX <= req && STATUS_PREFIX <= req)
    ensures !(CYCLE_PREFIX <= req && STATUS_PREFIX <= req)
  {
    // The literals differ at byte 5 ('o', 'c', 's') or, for /on and /off, at byte 6 ('n', 'f').
    assert ON_PREFIX[5] == 'o' as int && ON_PREFIX[6] == 'n' as int;
    assert OFF_PREFIX[5] == 'o' as int && OFF_PREFIX[6] == 'f' as int;
    assert CYCLE_PREFIX[5] == 'c' as int;
    assert STATUS_PREFIX[5] == 's' as int;
  }

  /** Each branch is taken exactly when the request line starts with its literal. */
  lemma ClassifyIsPrefixDispatch(req: seq<byte>)
    ensures Classify(req) == On <==> ON_PREFIX <= req
    ensures Classify(req) == Off <==> OFF_PREFIX <= req
    ensures Classify(req) == Cycle <==> CYCLE_PREFIX <= req
    ensures Classify(req) == Status <==> STATUS_PREFIX <= req
    ensures Classify(req) == Unknown <==>
      !(ON_PREFIX <= req || OFF_PREFIX <= req || CYCLE_PREFIX <= req || STATUS_PREFIX <= req)
  {
    PrefixLengths();
    TakeMatchesIffPrefix(req, ON_PREFIX);
    TakeMatchesIffPrefix(req, OFF_PREFIX);
    TakeMatchesIffPrefix(req, CYCLE_PREFIX);
    TakeMatchesIffPrefix(req, STATUS_PREFIX);
    PrefixesExclusive(req);
  }

  /** Only the prefix is inspected: whatever follows it (a path such as /onion, the HTTP version) is ignored. */
  lemma OnlyPrefixMatters(rest: seq<byte>)
    ensures Classify(ON_PREFIX + rest) == On
    ensures Classify(OFF_PREFIX + rest) == Off
    ensures Classify(CYCLE_PREFIX + rest) == Cycle
    ensures Classify(STATUS_PREFIX + rest) == Status
  {
    ClassifyIsPrefixDispatch(ON_PREFIX + rest);
    ClassifyIsPrefixDispatch(OFF_PREFIX + rest);
    ClassifyIsPrefixDispatch(CYCLE_PREFIX + rest);
    ClassifyIsPrefixDispatch(STATUS_PREFIX + rest);
  }

  // ---------------------------------------------------------------------------
  // The branches

  /** GET /on: relay and LED pins are driven to 1, in that order, and the page says so. */
  lemma OnEffect(p: Pins, req: seq<byte>, freeMem: int, uptime: int)
    requires ON_PREFIX <= req
    ensures Next(p, req) == Pins(1, 1, p.button)
    ensures Writes(Classify(req)) == [PinWrite(Relay, 1), PinWrite(GreenLed, 1)]
    ensures Body(p, req, freeMem, uptime) == HEAD + "<p>Switched Relais ON</p><hr>" + FOOTER
  {
    ClassifyIsPrefixDispatch(req);
    ApplyPair(p, 1);
  }

  /** GET /off: relay and LED pins are driven to 0, in that order, and the page says so. */
  lemma OffEffect(p: Pins, req: seq<byte>, freeMem: int, uptime: int)
    requires OFF_PREFIX <= req
    ensures Next(p, req) == Pins(0, 0, p.button)
    ensures Writes(Classify(req)) == [PinWrite(Relay, 0), PinWrite(GreenLed, 0)]
    ensures Body(p, req, freeMem, uptime) == HEAD + "<p>Switched Relais OFF</p><hr>" + FOOTER
  {
    ClassifyIsPrefixDispatch(req);
    ApplyPair(p, 0);
  }

  /** GET /cycle: both pins go to 0 and then to 1, ending at 1 whatever they were,
      and the OFF message precedes the ON message. */
  lemma CycleEffect(p: Pins, req: seq<byte>, freeMem: int, uptime: int)
    requires CYCLE_PREFIX <= req
    ensures Next(p, req) == Pins(1, 1, p.button)
    ensures Writes(Classify(req)) ==
      [PinWrite(Relay, 0), PinWrite(GreenLed, 0), PinWrite(Relay, 1), PinWrite(GreenLed, 1)]
    ensures Apply(p, Writes(Classify(req))[..2]) == Pins(0, 0, p.button)
    ensures Body(p, req, freeMem, uptime)
         == HEAD + "<p>Switched Relais OFF</p>" + "<p>Switched Relais ON</p><hr>" + FOOTER
  {
    ClassifyIsPrefixDispatch(req);
    var w := Writes(Cycle);
    assert w == Writes(Off) + Writes(On) && w[..2] == Writes(Off);
    ApplyConcat(p, Writes(Off), Writes(On));
    ApplyPair(p, 0);
    ApplyPair(Pins(0, 0, p.button), 1);
  }

  /** GET /status: no pin changes; the page reports the three levels, the free memory and the uptime. */
  lemma StatusEffect(p: Pins, req: seq<byte>, freeMem: int, uptime: int)
    requires STATUS_PREFIX <= req
    ensures Next(p, req) == p
    ensures Writes(Classify(req)) == []
    ensures Body(p, req, freeMem, uptime) == HEAD + StatusFragment(p, freeMem, uptime) + FOOTER
  {
    ClassifyIsPrefixDispatch(req);
  }

  /** A request matching none of the prefixes changes no pin and gets the bare usage page. */
  lemma UnknownEffect(p: Pins, req: seq<byte>, freeMem: int, uptime: int)
    requires !(ON_PREFIX <= req || OFF_PREFIX <= req || CYCLE_PREFIX <= req || STATUS_PREFIX <= req)
    ensures Next(p, req) == p
    ensures Writes(Classify(req)) == []
    ensures Body(p, req, freeMem, uptime) == HEAD + FOOTER
  {
    ClassifyIsPrefixDispatch(req);
  }

  /** The status words for a 0/1 level: relay ON iff 1, LED ON iff 0 (inverted), button PRESSED iff 0;
      'undefined' is never reported. */
  lemma StatusWords(v: Level)
    ensures RelayText(v) == "ON" <==> v == 1
    ensures RelayText(v) == "OFF" <==> v == 0
    ensures LedText(v) == "ON" <==> v == 0
    ensures LedText(v) == "OFF" <==> v == 1
    ensures ButtonText(v) == "PRESSED" <==> v == 0
    ensures ButtonText(v) == "NOT PRESSED" <==> v == 1
    ensures RelayText(v) != "undefined" && LedText(v) != "undefined" && ButtonText(v) != "undefined"
  {
  }

  /** The status words can be read back: different levels give different words. */
  lemma StatusWordsInjective(a: Level, b: Level)
    ensures RelayText(a) == RelayText(b) ==> a == b
    ensures LedText(a) == LedText(b) ==> a == b
    ensures ButtonText(a) == ButtonText(b) ==> a == b
  {
  }

  predicate NoTag(s: string)
  {
    '<' !in s
  }

  /** The values on the status page contain no '<', so each ends where its closing tag begins. */
  lemma ValuesNoTag(v: int, i: int)
    ensures NoTag(RelayText(v)) && NoTag(LedText(v)) && NoTag(ButtonText(v))
    ensures NoTag(Decimal(i))
  {
  }

  /** The index of the first '<' in s, or |s| when there is none. */
  function TagIndex(s: string): nat
    decreases |s|
  {
    if s == [] || s[0] == '<' then 0 else 1 + TagIndex(s[1..])
  }

  lemma {:induction false} TagIndexAfterWord(a: string, t: string)
    requires NoTag(a) && t != [] && t[0] == '<'
    ensures TagIndex(a + t) == |a|
    decreases |a|
  {
    if a != [] {
      assert (a + t)[1..] == a[1..] + t;
      TagIndexAfterWord(a[1..], t);
    }
  }

  /** A word free of '<' followed by a tag is read back unambiguously. */
  lemma WordBeforeTag(a: string, b: string, x: string, y: string)
    requires NoTag(a) && NoTag(b)
    requires x != [] && x[0] == '<' && y != [] && y[0] == '<'
    requires a + x == b + y
    ensures a == b && x == y
  {
    TagIndexAfterWord(a, x);
    TagIndexAfterWord(b, y);
    assert a == (a + x)[..|a|] && b == (b + y)[..|b|];
    assert x == (a + x)[|a|..] && y == (b + y)[|b|..];
  }

  /** A paragraph followed by more text, regrouped so that the value comes right after the opening.
      Stated on variables to keep the status-page proofs away from reassociating literals. */
  lemma ParaThen(opening: string, v: string, x: string)
    ensures Para(opening, v) + x == opening + (v + ("</p>" + x))
  {
  }

  /** Reading one paragraph of the status page gives back its value and the rest of the page. */
  lemma ParaInjective(opening: string, a: string, b: string, x: string, y: string)
    requires NoTag(a) && NoTag(b)
    requires Para(opening, a) + x == Para(opening, b) + y
    ensures a == b && x == y
  {
    var n := |opening|;
    ParaThen(opening, a, x);
    ParaThen(opening, b, y);
    assert (Para(opening, a) + x)[n..] == a + ("</p>" + x);
    assert (Para(opening, b) + y)[n..] == b + ("</p>" + y);
    WordBeforeTag(a, b, "</p>" + x, "</p>" + y);
    assert x == ("</p>" + x)[4..] && y == ("</p>" + y)[4..];
  }

  /** The status fragment read paragraph by paragraph. */
  lemma StatusFragmentParas(p: Pins, m: int, u: int)
    ensures StatusFragment(p, m, u)
         == Para("<p>Relais Status is: ", RelayText(p.relay))
          + (Para("<p>Green LED Status is: ", LedText(p.led))
          + (Para("<p>Button Status is: ", ButtonText(p.button))
          + (Para("<p>Free Mem is: ", Decimal(m))
          + (Para("<p>Uptime in sec: ", Decimal(u)) + "<hr>"))))
  {
    var p1, p2, p3 := Para("<p>Relais Status is: ", RelayText(p.relay)), Para("<p>Green LED Status is: ", LedText(p.led)), Para("<p>Button Status is: ", ButtonText(p.button));
    var p4, p5 := Para("<p>Free Mem is: ", Decimal(m)), Para("<p>Uptime in sec: ", Decimal(u));
    SeqAssoc5(p1, p2, p3, p4, p5, "<hr>");
  }

  /** Reassociation of six pieces, on variables for the same reason as ParaThen. */
  lemma SeqAssoc5(s1: string, s2: string, s3: string, s4: string, s5: string, s6: string)
    ensures s1 + s2 + s3 + s4 + s5 + s6 == s1 + (s2 + (s3 + (s4 + (s5 + s6))))
  {
  }

  /** Five paragraphs with '<'-free values, as on the status page, give back their values. */
  lemma ParasInjective(l1: string, l2: string, l3: string, l4: string, l5: string,
                       a1: string, a2: string, a3: string, a4: string, a5: string,
                       b1: string, b2: string, b3: string, b4: string, b5: string)
    requires NoTag(a1) && NoTag(a2) && NoTag(a3) && NoTag(a4) && NoTag(a5)
    requires NoTag(b1) && NoTag(b2) && NoTag(b3) && NoTag(b4) && NoTag(b5)
    requires Para(l1, a1) + (Para(l2, a2) + (Para(l3, a3) + (Para(l4, a4) + (Para(l5, a5) + "<hr>"))))
          == Para(l1, b1) + (Para(l2, b2) + (Para(l3, b3) + (Para(l4, b4) + (Para(l5, b5) + "<hr>"))))
    ensures a1 == b1 && a2 == b2 && a3 == b3 && a4 == b4 && a5 == b5
  {
    var x4, y4 := Para(l5, a5) + "<hr>", Para(l5, b5) + "<hr>";
    var x3, y3 := Para(l4, a4) + x4, Para(l4, b4) + y4;
    var x2, y2 := Para(l3, a3) + x3, Para(l3, b3) + y3;
    var x1, y1 := Para(l2, a2) + x2, Para(l2, b2) + y2;
    ParaInjective(l1, a1, b1, x1, y1);
    ParaInjective(l2, a2, b2, x2, y2);
    ParaInjective(l3, a3, b3, x3, y3);
    ParaInjective(l4, a4, b4, x4, y4);
    ParaInjective(l5, a5, b5, "<hr>", "<hr>");
  }

  /** The status fragment determines the pin levels, the free memory and the uptime it was rendered from:
      the page reports the state faithfully. */
  lemma StatusFragmentInjective(p: Pins, m: int, u: int, q: Pins, m': int, u': int)
    requires StatusFragment(p, m, u) == StatusFragment(q, m', u')
    ensures p == q && m == m' && u == u'
  {
    ValuesNoTag(p.relay, m); ValuesNoTag(p.led, u); ValuesNoTag(p.button, m);
    ValuesNoTag(q.relay, m'); ValuesNoTag(q.led, u'); ValuesNoTag(q.button, m');
    StatusFragmentParas(p, m, u);
    StatusFragmentParas(q, m', u');
    ParasInjective("<p>Relais Status is: ", "<p>Green LED Status is: ", "<p>Button Status is: ", "<p>Free Mem is: ", "<p>Uptime in sec: ",
      RelayText(p.relay), LedText(p.led), ButtonText(p.button), Decimal(m), Decimal(u),
      RelayText(q.relay), LedText(q.led), ButtonText(q.button), Decimal(m'), Decimal(u'));
    StatusWordsDetermine(p, m, u, q, m', u');
  }

  lemma StatusWordsDetermine(p: Pins, m: int, u: int, q: Pins, m': int, u': int)
    requires RelayText(p.relay) == RelayText(q.relay)
    requires LedText(p.led) == LedText(q.led)
    requires ButtonText(p.button) == ButtonText(q.button)
    requires Decimal(m) == Decimal(m') && Decimal(u) == Decimal(u')
    ensures p == q && m == m' && u == u'
  {
    StatusWordsInjective(p.relay, q.relay);
    StatusWordsInjective(p.led, q.led);
    StatusWordsInjective(p.button, q.button);
    DecimalInjective(m, m');
    DecimalInjective(u, u');
  }

  // ---------------------------------------------------------------------------
  // Response shape

  /** Slicing a page built as header + (head + middle + footer) gives back each part. */
  lemma Framed(header: string, head: string, middle: string, footer: string)
    ensures var b := head + middle + footer;
      var r := header + b;
      r[..|header|] == header
      && r[|header|..|header| + |head|] == head
      && r[|r| - |footer|..] == footer
      && b[|head|..|b| - |footer|] == middle
  {
    var b := head + middle + footer;
    assert b[|head|..|b| - |footer|] == middle;
    var r := header + b;
    assert r[..|header|] == header;
    assert r[|header|..|header| + |head|] == head;
    assert r[|r| - |footer|..] == footer;
  }

  /** Every response is the 200 status line, the page head, one fragment and the usage footer. */
  lemma ResponseShape(p: Pins, req: seq<byte>, freeMem: int, uptime: int)
    ensures var r := Response(p, req, freeMem, uptime);
      r[..|HEADER|] == "HTTP/1.0 200 OK\r\n\r\n"
      && r[|HEADER|..|HEADER| + |HEAD|] == HEAD
      && r[|r| - |FOOTER|..] == FOOTER
    ensures var f := Body(p, req, freeMem, uptime)[|HEAD|..|Body(p, req, freeMem, uptime)| - |FOOTER|];
      f == "" || f == SWITCHED_ON || f == SWITCHED_OFF || f == CYCLE_OFF + SWITCHED_ON
      || f == StatusFragment(p, freeMem, uptime)
  {
    Framed(HEADER, HEAD, Fragment(Classify(req), p, freeMem, uptime), FOOTER);
  }

  // ---------------------------------------------------------------------------
  // Pin invariants

  lemma {:induction false} ApplyKeepsButton(p: Pins, w: seq<PinWrite>)
    ensures Apply(p, w).button == p.button
    decreases |w|
  {
    if w != [] {
      ApplyKeepsButton(Write(p, w[0]), w[1..]);
    }
  }

  /** The button is an input: no request writes it. */
  lemma {:induction false} ButtonNeverWritten(p: Pins, reqs: seq<seq<byte>>)
    ensures Run(p, reqs).button == p.button
    decreases |reqs|
  {
    if reqs != [] {
      ApplyKeepsButton(p, Writes(Classify(reqs[0])));
      ButtonNeverWritten(Next(p, reqs[0]), reqs[1..]);
    }
  }

  /** Every branch drives the relay and the LED pin to the same level, so after any request
      that changes a pin the two are equal, and /status and unknown requests keep them as they were. */
  lemma NextMirrors(p: Pins, req: seq<byte>)
    ensures Classify(req) in {On, Off, Cycle} ==> Next(p, req).relay == Next(p, req).led
    ensures Classify(req) in {Status, Unknown} ==> Next(p, req) == p
  {
    ClassifyIsPrefixDispatch(req);
    match Classify(req)
    case On => OnEffect(p, req, 0, 0);
    case Off => OffEffect(p, req, 0, 0);
    case Cycle => CycleEffect(p, req, 0, 0);
    case Status =>
    case Unknown =>
  }

  /** The LED pin mirrors the relay pin across any sequence of requests that starts with them equal. */
  lemma {:induction false} RunMirrors(p: Pins, reqs: seq<seq<byte>>)
    requires p.relay == p.led
    ensures Run(p, reqs).relay == Run(p, reqs).led
    decreases |reqs|
  {
    if reqs != [] {
      NextMirrors(p, reqs[0]);
      RunMirrors(Next(p, reqs[0]), reqs[1..]);
    }
  }

  /** From the boot levels (both 1), the LED pin equals the relay pin after every request. */
  lemma BootMirrors(button: Level, reqs: seq<seq<byte>>)
    ensures Run(Boot(button), reqs).relay == Run(Boot(button), reqs).led
  {
    RunMirrors(Boot(button), reqs);
  }

  /** Because the green LED is active-low and follows the relay's pin level, after any requests from boot
      /status reports the green LED ON exactly when it reports the relay OFF. */
  lemma GreenLedOppositeOfRelay(button: Level, reqs: seq<seq<byte>>)
    ensures var p := Run(Boot(button), reqs);
      LedText(p.led) == "ON" <==> RelayText(p.relay) == "OFF"
  {
    BootMirrors(button, reqs);
  }

  /** Handling the same request twice leaves the pins as handling it once. */
  lemma NextIdempotent(p: Pins, req: seq<byte>)
    ensures Next(Next(p, req), req) == Next(p, req)
  {
    ClassifyIsPrefixDispatch(req);
    match Classify(req)
    case On => OnEffect(p, req, 0, 0); OnEffect(Next(p, req), req, 0, 0);
    case Off => OffEffect(p, req, 0, 0); OffEffect(Next(p, req), req, 0, 0);
    case Cycle => CycleEffect(p, req, 0, 0); CycleEffect(Next(p, req), req, 0, 0);
    case Status =>
    case Unknown =>
  }

  /** After /on, a following /status reports the relay ON; after /off, OFF. */
  lemma SwitchThenStatus(p: Pins, switch: seq<byte>, status: seq<byte>, freeMem: int, uptime: int)
    requires STATUS_PREFIX <= status
    ensures ON_PREFIX <= switch ==>
      Body(Next(p, switch), status, freeMem, uptime)
      == HEAD + StatusFragment(Pins(1, 1, p.button), freeMem, uptime) + FOOTER
      && RelayText(Next(p, switch).relay) == "ON"
    ensures OFF_PREFIX <= switch ==>
      Body(Next(p, switch), status, freeMem, uptime)
      == HEAD + StatusFragment(Pins(0, 0, p.button), freeMem, uptime) + FOOTER
      && RelayText(Next(p, switch).relay) == "OFF"
  {
    StatusEffect(Next(p, switch), status, freeMem, uptime);
    if ON_PREFIX <= switch {
      OnEffect(p, switch, freeMem, uptime);
    }
    if OFF_PREFIX <= switch {
      OffEffect(p, switch, freeMem, uptime);
    }
  }

  /** Two /status requests in a row report the same relay, LED and button words;
      only the free memory and the uptime may differ. */
  lemma StatusTwice(p: Pins, r1: seq<byte>, r2: seq<byte>, m1: int, u1: int, m2: int, u2: int)
    requires STATUS_PREFIX <= r1 && STATUS_PREFIX <= r2
    ensures Next(Next(p, r1), r2) == p
    ensures Body(Next(p, r1), r2, m2, u2) == HEAD + StatusFragment(p, m2, u2) + FOOTER
    ensures Body(p, r1, m1, u1) == HEAD + StatusFragment(p, m1, u1) + FOOTER
  {
    StatusEffect(p, r1, m1, u1);
    StatusEffect(p, r2, m2, u2);
  }
}
