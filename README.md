# Sonoff S20 web server: router and pin-state model

`main.py` turns a Sonoff S20 smart outlet into a tiny HTTP/1.0 server. On every
accepted connection it reads the request line. It dispatches on the line's
prefix: `GET /on`, `GET /off`, `GET /cycle`, `GET /status`, or anything else.
It drives the relay pin (12, active-high) and the green LED pin (13, active-low).
Then it builds an HTML page by appending fragments, reads and drops the
remaining header lines, and writes `HTTP/1.0 200 OK` followed by the page.

This project models that core in Dafny.

- `text.dfy` (module `Text`) covers byte strings as `readline()` returns them,
  Python's `s[:n]` slice, and Python's `str()` on an integer, with a proof that
  `str()` can be read back.
- `router.dfy` (module `Router`) is the specification, written as pure functions:
  - `Classify` is the ordered prefix dispatch;
  - `Writes` gives the pin writes each branch issues, in order;
  - `Next` and `Run` give the pin levels after one request and after many;
  - `Body` and `Response` give the page and the answer.
  
  The lemmas cover the dispatch, the effect of each branch, the status words, the
  fact that the status page can be parsed back, and the invariant that the relay
  and LED pins always carry the same level.
- `device.dfy` (module `Device`) has the class `Outlet`. Its fields `relay` and
  `led` are updated in place, `button` is a constant input, and a ghost `trace`
  records the pin writes. `Outlet.Route` is the request body, written as the
  source writes it: an if/elif chain over `Take(req, n)`, pin writes, and an
  `output` string built by appending. It is proved to match `Router.Next`,
  `Router.Writes` and `Router.Body`.
- `server.dfy` (module `Server`) has three methods:
  - `DrainHeaders` is the header-drain loop;
  - `HandleConnection` is one pass of the server loop;
  - `Serve` applies `HandleConnection` to a finite sequence of connections.

## The green LED is dark while the relay is on

The green LED is wired active-low (line 3 of `main.py`). At boot both output pins
are created at level 1 (lines 64-65), which the source itself comments as "Relais
on" and "green LED off". Every switching branch then writes the same level to the
relay and to the LED (lines 122-123, 127-128, 132-133, 137-138). So the LED is lit
exactly while the relay is off. The status branch reads the LED's pin level and
reports it with inverted words (lines 150-153). After `/on`, `/status` therefore
reports `Relais Status is: ON` together with `Green LED Status is: OFF`.
`Router.LedText` maps level 0 to `ON` and level 1 to `OFF`.
`Router.GreenLedOppositeOfRelay` proves this pairing for every request history
since boot.

## Model

| member | source | states |
|---|---|---|
| `Text.Take` | main.py:120 | `req[:n]` has length `min(n, len(req))` and is a prefix of `req` |
| `Text.TakeMatchesIffPrefix` | main.py:120 | `req[:len(lit)] == lit` holds exactly when `lit` is a prefix of `req` |
| `Text.Digits` | main.py:170-171 | the decimal digits of a natural number are at least one digit, with no leading zero, and a single digit exactly below 10 |
| `Text.DigitsRoundTrip` | main.py:170-171 | reading the digits back gives the number |
| `Text.Decimal` | main.py:170-171 | `str(i)` is non-empty and starts with `-` exactly when `i` is negative; every other character is a digit, including the first when `i >= 0` |
| `Text.DecimalRoundTrip` | main.py:170-171 | `int(str(i)) == i`: the free-memory and uptime values can be read back from the page |
| `Text.DecimalInjective` | main.py:170-171 | different integers render as different strings |
| `Router.Classify` | main.py:120-140 | the if/elif chain as a function of the request line; its contract is `Router.ClassifyIsPrefixDispatch`, with `Router.PrefixesExclusive` and `Router.OnlyPrefixMatters` |
| `Router.Writes` | main.py:122-138 | the pin writes of each branch in order; the branch lemmas (`Router.OnEffect` … `Router.UnknownEffect`) state them per command |
| `Router.Next` | main.py:120-140 | the levels one request leaves; its contracts are `Router.NextMirrors`, `Router.NextIdempotent` and the branch lemmas |
| `Router.Run` | main.py:106-172 | the levels a sequence of requests leaves; its contracts are `Router.RunMirrors` and `Router.ButtonNeverWritten` |
| `Router.Boot` | main.py:64-65 | relay and LED at level 1 at boot; its contracts are `Router.BootMirrors` and `Router.GreenLedOppositeOfRelay` |
| `Router.PrefixesExclusive` | main.py:120-140 | no request line starts with two of the four command prefixes |
| `Router.ClassifyIsPrefixDispatch` | main.py:120-140 | the branch taken is `/on`, `/off`, `/cycle` or `/status` exactly when the line starts with that literal, and the fall-through branch exactly when it starts with none of them |
| `Router.OnlyPrefixMatters` | main.py:120-140 | whatever follows the prefix (path suffix, query, HTTP version) does not change the branch |
| `Router.ApplyConcat` | main.py:122-138 | applying two runs of pin writes one after the other equals applying them joined |
| `Router.ApplyPair` | main.py:122-123 | writing the relay and then the LED with level v sets both to v and keeps the button |
| `Router.OnEffect` | main.py:120-124 | `/on` sets relay and LED to 1, writes relay then LED, and renders only the `Switched Relais ON` fragment between head and footer |
| `Router.OffEffect` | main.py:125-129 | `/off` sets both pins to 0, writes relay then LED, and renders only the `Switched Relais OFF` fragment |
| `Router.CycleEffect` | main.py:130-139 | `/cycle` writes 0 to relay and LED and then 1 to both, passes through levels (0, 0), ends at (1, 1), and renders the OFF message followed by the ON message |
| `Router.StatusEffect` | main.py:140-171 | `/status` writes no pin, keeps the levels, and renders the status fragment of the current levels |
| `Router.UnknownEffect` | main.py:119-172 | any other line writes no pin, keeps the levels, and renders just the head and the usage footer |
| `Router.RelayText` | main.py:141-148 | the relay's status word; its contracts are `Router.StatusWords` and `Router.StatusWordsInjective` |
| `Router.LedText` | main.py:142-153 | the green LED's status word, inverted because the LED is active-low; its contracts are `Router.StatusWords` and `Router.StatusWordsInjective` |
| `Router.ButtonText` | main.py:143-158 | the button's status word; its contracts are `Router.StatusWords` and `Router.StatusWordsInjective` |
| `Router.StatusFragment` | main.py:167-171 | the five status paragraphs and the rule; its contracts are `Router.StatusFragmentInjective` and `Device.Outlet.StatusReport` |
| `Router.StatusWords` | main.py:141-158 | relay level 1/0 reads `ON`/`OFF`; LED level 0/1 reads `ON`/`OFF` (inverted); button 0/1 reads `PRESSED`/`NOT PRESSED`; a pin level is never reported as `undefined` |
| `Router.StatusWordsInjective` | main.py:141-158 | different levels give different words |
| `Router.ValuesNoTag` | main.py:141-171 | no status word and no decimal contains `<`, so each paragraph value ends at the next tag |
| `Router.TagIndexAfterWord` | main.py:167-171 | in a value followed by a tag, the first `<` sits right after the value |
| `Router.WordBeforeTag` | main.py:167-171 | two tag-free values each followed by a tag are equal when the strings are, and so are the rests |
| `Router.ParaInjective` | main.py:167-171 | one status paragraph followed by more text can only be split one way |
| `Router.ParasInjective` | main.py:167-171 | five paragraphs with fixed openings and tag-free values determine their values |
| `Router.StatusWordsDetermine` | main.py:141-171 | equal status words and decimals mean equal levels, free memory and uptime |
| `Router.StatusFragmentInjective` | main.py:141-171 | the status page determines the relay, LED and button levels, the free memory and the uptime |
| `Router.Body` | main.py:119-172 | the page that `output` holds after line 172; its contracts are the branch lemmas and `Device.Outlet.Route` |
| `Router.Response` | main.py:182 | `outputheader + output`; its contract is `Router.ResponseShape` |
| `Router.ResponseShape` | main.py:105-182 | every answer is the 200 status line, the page head with the title, exactly one of the five fragments, and the usage footer |
| `Router.ApplyKeepsButton` | main.py:63 | no pin write changes the button input |
| `Router.ButtonNeverWritten` | main.py:63-172 | no sequence of requests changes the button input |
| `Router.NextMirrors` | main.py:120-140 | a switching request leaves relay and LED at the same level; `/status` and unknown requests leave all levels unchanged |
| `Router.RunMirrors` | main.py:120-140 | if relay and LED start at the same level, they share a level after any sequence of requests |
| `Router.BootMirrors` | main.py:64-65 | from boot (both pins 1) relay and LED share a level after any requests |
| `Router.GreenLedOppositeOfRelay` | main.py:64-65 | from boot, `/status` reports the green LED `ON` exactly when it reports the relay `OFF` |
| `Router.NextIdempotent` | main.py:120-140 | handling the same request twice leaves the pins as handling it once |
| `Router.SwitchThenStatus` | main.py:120-171 | after `/on` a `/status` page reports levels (1, 1) and relay `ON`; after `/off`, (0, 0) and `OFF` |
| `Router.StatusTwice` | main.py:140-171 | two `/status` requests in a row keep every level, and both pages show the same levels |
| `Device.Outlet.constructor` | main.py:63-65 | at boot relay and LED are 1, the button is the input's level, and no write is recorded |
| `Device.Outlet.SetRelay` | main.py:122 | `relaispin.value(v)` sets the relay to v, keeps the LED, and records the write |
| `Device.Outlet.SetLed` | main.py:123 | `greenledpin.value(v)` sets the LED to v, keeps the relay, and records the write |
| `Device.Outlet.StatusReport` | main.py:141-171 | building the status fragment by the source's sequence of tests and appends gives `Router.StatusFragment` of the current levels |
| `Device.Outlet.Route` | main.py:119-172 | the new levels are `Router.Next` of the old ones, the recorded writes grow by `Router.Writes` of the branch, the output is `Router.Body`, and relay == LED is preserved |
| `Server.DrainLength` | main.py:173-176 | the number of lines the drain reads; its contracts are `Server.DrainStopsAtFirstTerminator`, `Server.DrainIgnoresLaterLines` and `Server.DrainHeaders` |
| `Server.DrainStopsAtFirstTerminator` | main.py:173-176 | the drain takes every line up to and including the first `b""` or `b"\r\n"` and none after it |
| `Server.DrainIgnoresLaterLines` | main.py:173-176 | lines after a terminator never change what the drain takes |
| `Server.DrainHeaders` | main.py:173-176 | the loop consumes exactly `DrainLength(lines)` lines: none before the last taken is a terminator, and the last taken is one unless the stream ran out |
| `Server.RequestLine` | main.py:117 | the first line of the connection, or `b""` when it sends nothing; its contract is `Server.HandleConnection` |
| `Server.HandleConnection` | main.py:105-183 | one connection routes its request line (`b""` when the client sends nothing), drains the rest, and answers `HTTP/1.0 200 OK` followed by `Router.Body` |
| `Server.AllWrites` | main.py:106-172 | every pin write of a run of requests, in order; its contracts are `Server.AllWritesReplay` and `Server.Serve` |
| `Server.AllWritesReplay` | main.py:106-172 | replaying those writes from the starting levels reaches exactly the levels the run leaves |
| `Server.Responses` | main.py:106-183 | the answers of a run of connections; its contracts are `Server.ResponsesLength`, `Server.ResponsesAt` and `Server.Serve` |
| `Server.ResponsesLength` | main.py:106-183 | one answer per connection |
| `Server.ResponsesAt` | main.py:106-183 | the i-th answer is the page for the i-th request line, rendered from the levels the earlier requests left |
| `Server.Serve` | main.py:106-186 | after a run of connections the levels are `Router.Run` of the request lines, the writes are all their writes in order, the answers are `Server.Responses`, and relay == LED is preserved |

## Left out

- WiFi setup and the readiness wait (lines 54-59 and 67-102) are left out. The
  model starts once the server is listening.
- The socket is left out. The accepted connection is a finite sequence of lines.
  Reading past the end yields `b""`, as MicroPython's `readline()` does at the
  end of the stream. The writes and the `close()` (lines 182-183) are modelled
  only as the returned answer string.
- The button interrupt, the five-minute watchdog timer and `machine.reset()`
  (lines 39-42 and 69-74) are left out. They reboot the device asynchronously,
  and reboots are not modelled.
- Device.Outlet: `button` is a constant for the life of one `Outlet`: the level
  the status branch reads at line 155. Only a falling edge of the button resets
  the device (line 70). A button held through boot therefore reads 0 (`PRESSED`).
  Releasing it is a rising edge that triggers nothing, so later `/status` pages
  read `NOT PRESSED` with no reboot. The model does not capture this one change
  of level per boot. `Router.StatusTwice` and `Router.ButtonNeverWritten` hold
  for a button that stays at one level.
- Socket or allocation errors reboot the device through the catch-all handler
  (lines 189-191). `readline()` and `write()` raise when the client drops the
  connection, and the `+=` appends can run out of memory. The reboot sets relay
  and LED back to 1 (lines 64-65) and sends no answer. Reboots are not modelled,
  so `Server.HandleConnection` and `Server.Serve` assume every connection
  completes.
- `time.sleep(2)` in `/cycle` (line 136) is left out. Only the order of the four
  pin writes and the intermediate levels are kept.
- `gc.mem_free()` and `time.time() - startuptime` (lines 50, 165-166 and 170-171)
  are integer parameters `freeMem` and `uptime`. The source calls these twice,
  once for `print` and once for the page. The model uses the value that goes
  onto the page.
- `gc.collect()` (line 184) has no observable effect in the model and is left
  out.
- Every `print` to the serial console is left out. None of them affects the pins
  or the answer.
- `Server.Serve` covers a finite sequence of connections. The source loops
  forever (line 106).
- Client IP and port parsing (lines 108-114) only feed `print` and are left out.
