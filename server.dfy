/** The server loop: for each accepted connection, read the request line,
    route it, drain the remaining header lines and write the answer. */
module Server {
  import opened Text
  import opened Router
  import opened Device

  const CRLF: seq<byte> := [13, 10]

  /** readline() returned b"" (end of stream) or b"\r\n" (the blank line that ends the headers). */
  predicate IsTerminator(line: seq<byte>)
  {
    line == [] || line == CRLF
  }

  /** How many lines the drain loop takes: up to and including the first terminator, or all of
      them when none is a terminator (readline() then returns b"" at the end of the stream). */
  function DrainLength(lines: seq<seq<byte>>): nat
    decreases |lines|
  {
    if lines == [] then 0
    else if IsTerminator(lines[0]) then 1
    else 1 + DrainLength(lines[1..])
  }

  /** The drain consumes every line up to the first terminator, that terminator, and nothing after it. */
  lemma {:induction false} DrainStopsAtFirstTerminator(lines: seq<seq<byte>>)
    ensures DrainLength(lines) <= |lines|
    ensures DrainLength(lines) == 0 <==> lines == []
    ensures forall k :: 0 <= k < DrainLength(lines) - 1 ==> !IsTerminator(lines[k])
    ensures 0 < DrainLength(lines) < |lines| ==> IsTerminator(lines[DrainLength(lines) - 1])
    decreases |lines|
  {
    if lines != [] && !IsTerminator(lines[0]) {
      DrainStopsAtFirstTerminator(lines[1..]);
      forall k | 0 <= k < DrainLength(lines) - 1
        ensures !IsTerminator(lines[k])
      {
        if k > 0 {
          assert lines[k] == lines[1..][k - 1];
        }
      }
    }
  }

  /** Lines after the terminator are never read: they do not change what the drain takes. */
  lemma {:induction false} DrainIgnoresLaterLines(lines: seq<seq<byte>>, later: seq<seq<byte>>)
    requires exists k :: 0 <= k < |lines| && IsTerminator(lines[k])
    ensures DrainLength(lines + later) == DrainLength(lines)
    decreases |lines|
  {
    assert (lines + later)[0] == lines[0];
    if !IsTerminator(lines[0]) {
      var k :| 0 <= k < |lines| && IsTerminator(lines[k]);
      assert IsTerminator(lines[1..][k - 1]);
      assert (lines + later)[1..] == lines[1..] + later;
      DrainIgnoresLaterLines(lines[1..], later);
    }
  }

  /** The header-drain loop: read lines until b"" or b"\r\n" and say how many were taken. */
  method DrainHeaders(lines: seq<seq<byte>>) returns (used: nat)
    ensures used == DrainLength(lines)
    ensures used <= |lines|
    ensures forall k :: 0 <= k < used - 1 ==> !IsTerminator(lines[k])
    ensures 0 < used < |lines| ==> IsTerminator(lines[used - 1])
  {
    used := 0;
    while true
      invariant used <= |lines|
      invariant forall k :: 0 <= k < used ==> !IsTerminator(lines[k])
      invariant DrainLength(lines) == used + DrainLength(lines[used..])
      decreases |lines| - used
    {
      var h: seq<byte> := [];
      if used < |lines| {
        h := lines[used];
        assert lines[used..][1..] == lines[used + 1..];
        used := used + 1;
      }
      if h == [] || h == CRLF {
        break;
      }
    }
  }

  /** The request line: the first line the client sends, or b"" when it sends nothing. */
  function RequestLine(lines: seq<seq<byte>>): seq<byte>
  {
    if lines == [] then [] else lines[0]
  }

  /** One pass of the server loop over a connection that delivers lines. */
  method HandleConnection(outlet: Outlet, lines: seq<seq<byte>>, freeMem: int, uptime: int)
    returns (response: string, consumed: nat)
    modifies outlet
    ensures outlet.State() == Next(old(outlet.State()), RequestLine(lines))
    ensures outlet.trace == old(outlet.trace) + Writes(Classify(RequestLine(lines)))
    ensures response == Response(old(outlet.State()), RequestLine(lines), freeMem, uptime)
    ensures consumed == if lines == [] then 0 else 1 + DrainLength(lines[1..])
  {
    var req: seq<byte> := [];
    var rest: seq<seq<byte>> := [];
    if lines != [] {
      req := lines[0];
      rest := lines[1..];
    }
    var output := outlet.Route(req, freeMem, uptime);
    var drained := DrainHeaders(rest);
    consumed := if lines == [] then 0 else 1 + drained;
    response := "HTTP/1.0 200 OK\r\n\r\n" + output;
  }

  /** What an accepted connection brings: its lines, and the free memory and uptime when it is routed. */
  datatype Connection = Connection(lines: seq<seq<byte>>, freeMem: int, uptime: int)

  function Requests(conns: seq<Connection>): (r: seq<seq<byte>>)
    ensures |r| == |conns|
    ensures forall i :: 0 <= i < |conns| ==> r[i] == RequestLine(conns[i].lines)
  {
    seq(|conns|, i requires 0 <= i < |conns| => RequestLine(conns[i].lines))
  }

  /** All pin writes a sequence of requests issues, in order. */
  function AllWrites(p: Pins, reqs: seq<seq<byte>>): seq<PinWrite>
    decreases |reqs|
  {
    if reqs == [] then [] else Writes(Classify(reqs[0])) + AllWrites(Next(p, reqs[0]), reqs[1..])
  }

  /** Replaying all the writes of a run of requests from p reaches the levels the run leaves. */
  lemma {:induction false} AllWritesReplay(p: Pins, reqs: seq<seq<byte>>)
    ensures Apply(p, AllWrites(p, reqs)) == Run(p, reqs)
    decreases |reqs|
  {
    if reqs != [] {
      var w := Writes(Classify(reqs[0]));
      ApplyConcat(p, w, AllWrites(Next(p, reqs[0]), reqs[1..]));
      AllWritesReplay(Next(p, reqs[0]), reqs[1..]);
    }
  }

  /** The responses the server writes, one per connection, each rendered from the pin levels
      the earlier connections left. */
  function Responses(p: Pins, conns: seq<Connection>): seq<string>
    decreases |conns|
  {
    if conns == [] then []
    else
      var req := RequestLine(conns[0].lines);
      [Response(p, req, conns[0].freeMem, conns[0].uptime)] + Responses(Next(p, req), conns[1..])
  }

  lemma {:induction false} RequestsTail(conns: seq<Connection>)
    requires conns != []
    ensures Requests(conns)[1..] == Requests(conns[1..])
  {
  }

  /** The first response is rendered from p; the rest from the state the first request left. */
  lemma ResponsesCons(p: Pins, conns: seq<Connection>)
    requires conns != []
    ensures Responses(p, conns)[0] == Response(p, RequestLine(conns[0].lines), conns[0].freeMem, conns[0].uptime)
    ensures Responses(p, conns)[1..] == Responses(Next(p, RequestLine(conns[0].lines)), conns[1..])
  {
  }

  /** The requests before index i, seen from the state the first request left. */
  lemma RunCons(p: Pins, reqs: seq<seq<byte>>, i: nat)
    requires 0 < i <= |reqs|
    ensures Run(p, reqs[..i]) == Run(Next(p, reqs[0]), reqs[1..][..i - 1])
  {
    assert reqs[..i][0] == reqs[0];
    assert reqs[..i][1..] == reqs[1..][..i - 1];
  }

  lemma {:induction false} ResponsesLength(p: Pins, conns: seq<Connection>)
    ensures |Responses(p, conns)| == |conns|
    decreases |conns|
  {
    if conns != [] {
      ResponsesLength(Next(p, RequestLine(conns[0].lines)), conns[1..]);
    }
  }

  /** The i-th response is the page for the i-th request line, rendered from the pin levels
      that the i requests before it produced. */
  lemma {:induction false} ResponsesAt(p: Pins, conns: seq<Connection>, i: nat)
    requires i < |conns|
    ensures |Responses(p, conns)| == |conns|
    ensures Responses(p, conns)[i]
         == Response(Run(p, Requests(conns)[..i]), RequestLine(conns[i].lines), conns[i].freeMem, conns[i].uptime)
    decreases i
  {
    ResponsesLength(p, conns);
    ResponsesCons(p, conns);
    if i == 0 {
      assert Requests(conns)[..0] == [];
    } else {
      var q := Next(p, RequestLine(conns[0].lines));
      ResponsesAt(q, conns[1..], i - 1);
      RequestsTail(conns);
      RunCons(p, Requests(conns), i);
      assert Responses(p, conns)[i] == Responses(p, conns)[1..][i - 1];
    }
  }

  /** The server loop over a finite run of accepted connections. */
  method Serve(outlet: Outlet, conns: seq<Connection>) returns (responses: seq<string>)
    modifies outlet
    ensures outlet.State() == Run(old(outlet.State()), Requests(conns))
    ensures outlet.trace == old(outlet.trace) + AllWrites(old(outlet.State()), Requests(conns))
    ensures responses == Responses(old(outlet.State()), conns)
    ensures old(outlet.relay == outlet.led) ==> outlet.relay == outlet.led
  {
    ghost var p0 := outlet.State();
    ghost var reqs := Requests(conns);
    responses := [];
    var i := 0;
    while i < |conns|
      invariant 0 <= i <= |conns|
      invariant Run(outlet.State(), reqs[i..]) == Run(p0, reqs)
      invariant outlet.trace + AllWrites(outlet.State(), reqs[i..]) == old(outlet.trace) + AllWrites(p0, reqs)
      invariant responses + Responses(outlet.State(), conns[i..]) == Responses(p0, conns)
      invariant p0.relay == p0.led ==> outlet.relay == outlet.led
    {
      ghost var s := outlet.State();
      ghost var t := outlet.trace;
      var response, _ := HandleConnection(outlet, conns[i].lines, conns[i].freeMem, conns[i].uptime);
      assert reqs[i..][0] == reqs[i] && reqs[i..][1..] == reqs[i + 1..];
      assert conns[i..][0] == conns[i] && conns[i..][1..] == conns[i + 1..];
      AppendAssoc(t, Writes(Classify(reqs[i])), AllWrites(outlet.State(), reqs[i + 1..]));
      AppendAssoc(responses, [response], Responses(outlet.State(), conns[i + 1..]));
      NextMirrors(s, reqs[i]);
      responses := responses + [response];
      i := i + 1;
    }
    assert reqs[|conns|..] == [] && conns[|conns|..] == [];
    assert responses + [] == responses;
    assert outlet.trace + [] == outlet.trace;
  }
}
