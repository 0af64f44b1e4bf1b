/** The device context of the outlet: the relay, green LED and button pins,
    and the router that drives them from one request line. */
module Device {
  import opened Text
  import opened Router

  class Outlet {
    /** Pin 12, active-high: 1 switches the relay on. */
    var relay: Level
    /** Pin 13, active-low: 0 lights the green LED. */
    var led: Level
    /** Pin 0, an input, active-low: 0 while the button is held.  Nothing writes it. */
    const button: Level
    /** The pin writes issued since boot, oldest first. */
    ghost var trace: seq<PinWrite>

    /** The three levels as the router specification sees them. */
    function State(): Pins
      reads this
    {
      Pins(relay, led, button)
    }

    /** Boot: relay and green LED pins are set up as outputs with value 1 (relay on, LED off). */
    constructor (button: Level)
      ensures State() == Boot(button)
      ensures trace == []
    {
      relay := 1;
      led := 1;
      this.button := button;
      trace := [];
    }

    /** relaispin.value(level) */
    method SetRelay(level: Level)
      modifies this
      ensures relay == level && led == old(led)
      ensures trace == old(trace) + [PinWrite(Relay, level)]
    {
      relay := level;
      trace := trace + [PinWrite(Relay, level)];
    }

    /** greenledpin.value(level) */
    method SetLed(level: Level)
      modifies this
      ensures led == level && relay == old(relay)
      ensures trace == old(trace) + [PinWrite(GreenLed, level)]
    {
      led := level;
      trace := trace + [PinWrite(GreenLed, level)];
    }

    /** The /status branch: the three pin levels in words, the free memory and the uptime. */
    method StatusReport(freeMem: int, uptime: int) returns (fragment: string)
      ensures fragment == StatusFragment(State(), freeMem, uptime)
    {
      var relayStatus := "undefined";
      var ledStatus := "undefined";
      var buttonStatus := "undefined";
      if relay == 0 { relayStatus := "OFF"; }
      if relay == 1 { relayStatus := "ON"; }
      if led == 0 { ledStatus := "ON"; }
      if led == 1 { ledStatus := "OFF"; }
      if button == 0 { buttonStatus := "PRESSED"; }
      if button == 1 { buttonStatus := "NOT PRESSED"; }
      assert relayStatus == RelayText(relay) && ledStatus == LedText(led) && buttonStatus == ButtonText(button);
      fragment := "<p>Relais Status is: " + relayStatus + "</p>";
      AppendPara("", "<p>Relais Status is: ", relayStatus);
      ghost var s1 := fragment;
      fragment := fragment + "<p>Green LED Status is: " + ledStatus + "</p>";
      AppendPara(s1, "<p>Green LED Status is: ", ledStatus);
      ghost var s2 := fragment;
      fragment := fragment + "<p>Button Status is: " + buttonStatus + "</p>";
      AppendPara(s2, "<p>Button Status is: ", buttonStatus);
      ghost var s3 := fragment;
      fragment := fragment + "<p>Free Mem is: " + Decimal(freeMem) + "</p>";
      AppendPara(s3, "<p>Free Mem is: ", Decimal(freeMem));
      ghost var s4 := fragment;
      fragment := fragment + "<p>Uptime in sec: " + Decimal(uptime) + "</p><hr>";
      AppendPara(s4, "<p>Uptime in sec: ", Decimal(uptime));
      ClosingAndRule();
      AppendAssoc(s4 + "<p>Uptime in sec: " + Decimal(uptime), "</p>", "<hr>");
    }

    /** The body of the server loop between reading the request line and draining the headers:
        dispatch on the request's prefix, drive the pins and build the page.
        freeMem stands for gc.mem_free() and uptime for time.time() - startuptime. */
    method Route(req: seq<byte>, freeMem: int, uptime: int) returns (output: string)
      modifies this
      ensures State() == Next(old(State()), req)
      ensures trace == old(trace) + Writes(Classify(req))
      ensures output == Body(old(State()), req, freeMem, uptime)
      ensures old(relay == led) ==> relay == led
    {
      ghost var p := State();
      PrefixLengths();
      output := "<html><head><title>" + TITLE + "</title></head><body>";
      if Take(req, 7) == ON_PREFIX {
        SetRelay(1);
        SetLed(1);
        PairWritten(old(trace), 1);
        output := output + "<p>Switched Relais ON</p><hr>";
        TakeMatchesIffPrefix(req, ON_PREFIX);
        OnEffect(p, req, freeMem, uptime);
      } else if Take(req, 8) == OFF_PREFIX {
        SetRelay(0);
        SetLed(0);
        PairWritten(old(trace), 0);
        output := output + "<p>Switched Relais OFF</p><hr>";
        TakeMatchesIffPrefix(req, OFF_PREFIX);
        OffEffect(p, req, freeMem, uptime);
      } else if Take(req, 10) == CYCLE_PREFIX {
        SetRelay(0);
        SetLed(0);
        output := output + "<p>Switched Relais OFF</p>";
        // time.sleep(2) happens here; only the order of the writes is modelled.
        SetRelay(1);
        SetLed(1);
        CycleWritten(old(trace));
        output := output + "<p>Switched Relais ON</p><hr>";
        TakeMatchesIffPrefix(req, CYCLE_PREFIX);
        CycleEffect(p, req, freeMem, uptime);
      } else if Take(req, 11) == STATUS_PREFIX {
        var fragment := StatusReport(freeMem, uptime);
        output := output + fragment;
        TakeMatchesIffPrefix(req, STATUS_PREFIX);
        StatusEffect(p, req, freeMem, uptime);
        NothingWritten(old(trace));
      } else {
        ClassifyIsPrefixDispatch(req);
        UnknownEffect(p, req, freeMem, uptime);
        NothingWritten(old(trace));
      }
      output := output + FOOTER;
    }
  }

  // The lemmas below are sequence identities on plain variables.  Route and StatusReport build
  // long literal strings; instantiating these small facts at the call sites keeps the solver
  // from reassociating the literals itself, which is what makes those proofs cheap.

  /** Appending a paragraph piece by piece appends the paragraph. */
  lemma AppendPara(start: string, opening: string, value: string)
    ensures start + opening + value + "</p>" == start + Para(opening, value)
  {
    AppendAssoc(start, opening, value);
    AppendAssoc(start + opening, value, "</p>");
    AppendAssoc(start, opening + value, "</p>");
  }

  /** Writing the relay and then the LED pin with one level records that pair. */
  lemma PairWritten(t: seq<PinWrite>, v: Level)
    ensures t + [PinWrite(Relay, v)] + [PinWrite(GreenLed, v)] == t + [PinWrite(Relay, v), PinWrite(GreenLed, v)]
  {
  }

  lemma NothingWritten(t: seq<PinWrite>)
    ensures t == t + []
  {
  }

  /** The four single writes of /cycle record Writes(Cycle). */
  lemma CycleWritten(t: seq<PinWrite>)
    ensures t + [PinWrite(Relay, 0)] + [PinWrite(GreenLed, 0)] + [PinWrite(Relay, 1)] + [PinWrite(GreenLed, 1)]
         == t + Writes(Cycle)
  {
  }


  lemma ClosingAndRule()
    ensures "</p>" + "<hr>" == "</p><hr>"
  {
  }
}
