# Serial calculator front end — a Dafny model

The program is a small Qt window that sends arithmetic requests such as
`4.5 / 2` to a microcontroller over a serial port and shows the answers. It
exists in three revisions, and this project models the sequential logic of
each:

- `pc_application/src/mainwindow.cpp` is the current revision. It has:
  - a port selector filled from the ports the system lists;
  - a connect/disconnect button and a status LED;
  - input validation before sending;
  - an error-log file next to the log view.

  Its two flags `isConnected` and `wasConnectedOnce` are declared in
  `pc_application/src/mainwindow.h:53-54`, both initially false.
- `pc_application/main_new.cpp` is the previous revision. It has the same
  validation and a 100 ms timer that checks whether the port is still open.
  It logs the response line even when the response is empty.
- `pc_application/main_calculator.cpp` is the earliest revision. It always
  connects to COM3 and sends the input exactly as typed.

The project is made of these modules:

- `validator.dfy` (`Validator`) models `check_input`. Both later revisions
  have the same code (`mainwindow.cpp:88-126`, `main_new.cpp:179-200`).
  - Every `,` is rewritten to `.`.
  - The text must then match the anchored pattern
    `^([-+]?[0-9]*\.?[0-9]+)\s*([+\-*/])\s*([-+]?[0-9]*\.?[0-9]+)$`.
  - A match whose operator is `/` and whose right operand is zero is refused with its own message.
  - The pattern language is stated as a specification (`Matches`: some split
    of the text into number, white space, operator, white space, number).
    It is recognised by a left-to-right scanner (`Parse`).
  - The two are proved to agree, and the split is unique. So the captured
    operator and right operand are well defined.
  - Two details of the pattern are modelled exactly:
    - `$` without the DOLLAR_ENDONLY option also matches before one final line feed;
    - `\s` is ASCII white space (space, tab, line feed, vertical tab, form feed, carriage return).
- `exchange.dfy` (`Exchange`) models the response loop that all three
  `sendCalculation`s share.
  - While a wait of at most 1000 ms reports data, the available data is appended to the buffer.
  - Reading stops as soon as the buffer ends with `'\n'`.
  - The device's output is a sequence of chunks. The end of the sequence stands for the first wait that times out.
- `serial.dfy` (`Serial`) holds the fixed port settings: 9600 baud, 8 data
  bits, no parity, one stop bit, no flow control, and the port name COM3 of
  the earliest revision.
- `view.dfy` (`View`) defines what the window shows:
  - log lines, error-log entries, prompts and the connect-button label, as values;
  - the exact text each one displays.
- `mainwindow.dfy`, `main_new.dfy` and `main_calculator.dfy` hold one class
  `Window` per revision. In each, the port's open state, name, settings and
  every write are fields, and so are the controls (input field, send button,
  button label) and the log.
  - `MainWindow.Window` also has the port selector, the flags `isConnected`
    and `wasConnectedOnce`, the LED and the error log. Its methods are
    `SelectPort`, `RefreshPorts`, `ToggleConnection` (with `ShowConnection`
    and `ReportConnectionError`), `CheckInput` and `SendCalculation`. Its
    `Valid()` says:
    - the selector index is in range, and -1 exactly when the selector is empty;
    - `isConnected` equals "port open";
    - a connection implies `wasConnectedOnce`;
    - the controls and the LED follow `isConnected`.
  - `MainNew.Window` also has the port selector, the prompt and the 100 ms
    timer. Its methods are `SelectPort`, `RefreshPorts`, `ToggleConnection`
    (with `Disconnect`, `Connect` and `ReportConnectionError`),
    `PortClosedExternally`, `CheckConnection`, `CheckInput` and
    `SendCalculation` (with `Transmit`). Its `Valid()` says:
    - the selector index is in range, as above;
    - the controls follow the timer, not the port, so a port that closes by
      itself leaves them enabled until the next tick;
    - an open port implies a running timer, and a running timer has the
      100 ms period;
    - the loss lines logged, plus one for a running timer, are at most the
      number of connections made, so at most one loss line is logged per
      connection.
  - `MainCalculator.Window` has no selector, flags, LED or timer, but it has
    the prompt. Its methods are `ToggleConnection` and `SendCalculation`. Its
    `Valid()` says:
    - the controls and the prompt follow the port;
    - an open port is COM3 with the fixed settings.

  Three things are method parameters:
  - the outcome of opening the port;
  - the list of available ports;
  - the chunks the device sends.

## Model

| member | source | states |
|---|---|---|
| Validator.IsSplit | pc_application/src/mainwindow.cpp:95 | the anchored pattern as a definition: number, white space, one of `+-*/`, white space, number, then the end of the text or one final line feed |
| Validator.Matches | pc_application/src/mainwindow.cpp:95-96 | `match.hasMatch()`: the text has some split by the pattern |
| Validator.IsZeroOperand | pc_application/src/mainwindow.cpp:100-103 | the `toDouble() == 0` test: every digit of the operand is `0`, whatever its sign |
| Validator.Check | pc_application/src/mainwindow.cpp:88-126 | the verdict of `check_input`; `CheckSpec` states what each verdict means |
| Validator.Sanitize | pc_application/src/mainwindow.cpp:92-93 | same length; every `,` becomes `.`, every other character is kept |
| Validator.DigitsEnd | pc_application/src/mainwindow.cpp:95 | the run of `[0-9]` found is all digits and maximal |
| Validator.SpacesEnd | pc_application/src/mainwindow.cpp:95 | the run of `\s` found is all white space and maximal |
| Validator.NumberEnd | pc_application/src/mainwindow.cpp:95 | a number found by the scanner is a `[-+]?[0-9]*\.?[0-9]+` |
| Validator.Parse | pc_application/src/mainwindow.cpp:95-98 | the parts of a split the scanner returns lie in order within the text |
| Validator.ParseSound | pc_application/src/mainwindow.cpp:95-98 | a split the scanner returns is a split of the whole text by the anchored pattern |
| Validator.CheckSpec | pc_application/src/mainwindow.cpp:92-114 | refused as badly formed exactly when the comma-rewritten input does not match; refused for division by zero exactly when the match's operator is `/` and its right operand is zero; accepted otherwise |
| Validator.NumberShape | pc_application/src/mainwindow.cpp:95 | a number starts with a sign, digit or dot and ends with a digit; it is unsigned exactly when its first character is no sign |
| Validator.DigitsEndAt | pc_application/src/mainwindow.cpp:95 | a run of digits that is followed by no digit is what the scanner finds |
| Validator.SpacesEndAt | pc_application/src/mainwindow.cpp:95 | a run of white space that is followed by none is what the scanner finds |
| Validator.UnsignedEnd | pc_application/src/mainwindow.cpp:95 | an unsigned number followed by no digit or dot is found by the scanner's digit and dot steps |
| Validator.NumberEndAt | pc_application/src/mainwindow.cpp:95 | a number followed by no digit or dot is exactly what the scanner finds there |
| Validator.NumberEndFrom | pc_application/src/mainwindow.cpp:95 | the number the scanner finds, in terms of where its digit and dot steps end |
| Validator.LeftFound | pc_application/src/mainwindow.cpp:95 | the scanner finds the left operand and the operator of every split |
| Validator.RightFound | pc_application/src/mainwindow.cpp:95 | the scanner finds the right operand of every split |
| Validator.MatchEnd | pc_application/src/mainwindow.cpp:95 | a match ends just before a final line feed if there is one, else at the end of the text |
| Validator.ParseComplete | pc_application/src/mainwindow.cpp:95-96 | every split of the text is the one the scanner returns |
| Validator.ParseFrom | pc_application/src/mainwindow.cpp:95-96 | the split the scanner returns, in terms of where each of its steps ends |
| Validator.ParseDecides | pc_application/src/mainwindow.cpp:95-98 | the scanner succeeds exactly on the texts the pattern matches |
| Validator.SplitUnique | pc_application/src/mainwindow.cpp:95-101 | two splits of one text are equal, so the captured operator and right operand are well defined |
| Validator.CommaInvariant | pc_application/src/mainwindow.cpp:92-96 | an input and its comma-to-dot rewrite get the same verdict |
| Validator.SplitFacts | pc_application/src/mainwindow.cpp:95 | per-character facts of a match: first character, left operand, white space, operator, final digit |
| Validator.PartsMatch | pc_application/src/mainwindow.cpp:95-98 | number, white space, operator, white space, number always match, with exactly those parts |
| Validator.WellFormedVerdict | pc_application/src/mainwindow.cpp:98-108 | a well-formed expression is accepted unless its operator is `/` and its right operand is zero, which is refused as a division by zero |
| Validator.SplitVerdict | pc_application/src/mainwindow.cpp:92-108 | the verdict on a matching text, from its split |
| Validator.NoCommaInMatch | pc_application/src/mainwindow.cpp:92-96 | a matching text holds no comma |
| Validator.SplitEnds | pc_application/src/mainwindow.cpp:95 | a matching text starts with a sign, digit or dot, and ends with a digit, or with a digit and one line feed |
| Validator.RejectedUnlessNumberFirst | pc_application/src/mainwindow.cpp:95-98 | nothing may precede the left operand: a text that starts with no sign, digit or dot does not match |
| Validator.RejectedUnlessDigitLast | pc_application/src/mainwindow.cpp:95-98 | nothing but one line feed may follow the right operand: a text whose last character, after at most one final line feed, is no digit does not match |
| Validator.RejectedExamples | pc_application/src/mainwindow.cpp:95-98 | `5.`, `1+`, `abc`, ` 1+2` and `1+2 ` do not match |
| Validator.RejectedDotBeforeOperator | pc_application/src/mainwindow.cpp:95-98 | `5.+1` does not match |
| Validator.RejectedMissingOperator | pc_application/src/mainwindow.cpp:95-98 | `1 2` does not match |
| Validator.ZeroOperandExamples | pc_application/src/mainwindow.cpp:100-103 | `0`, `-0.0` and `.0` are zero operands; `0.5` is not |
| Validator.AcceptedPlain | pc_application/src/mainwindow.cpp:95-98 | `4+5` matches |
| Validator.AcceptedSigned | pc_application/src/mainwindow.cpp:95-98 | `-1.5 * +2` matches |
| Validator.AcceptedTrailingNewline | pc_application/src/mainwindow.cpp:95-98 | `7-3` followed by a line feed matches |
| Validator.DecimalCommaExample | pc_application/src/mainwindow.cpp:92-93 | `1,5+2,5` is rewritten to `1.5+2.5` |
| Validator.DivisionByZeroVerdict | pc_application/src/mainwindow.cpp:100-107 | `4 / -0.0` is refused as a division by zero |
| Validator.DivisionAcceptedVerdict | pc_application/src/mainwindow.cpp:100-108 | `4/0.5` is accepted |
| Validator.BadFormatVerdict | pc_application/src/mainwindow.cpp:110-114 | `5.` is refused as badly formed |
| Exchange.StopFrom | pc_application/src/mainwindow.cpp:214-218 | reading on from a point where the buffer has not ended with a line feed reaches a stop point |
| Exchange.Consumed | pc_application/src/mainwindow.cpp:214-218 | the chunks one exchange reads: all of them, or up to the first after which the buffer ends with a line feed |
| Exchange.ConcatStep | pc_application/src/mainwindow.cpp:216 | reading one more chunk appends it to the buffer |
| Exchange.Reply | pc_application/src/mainwindow.cpp:214-218 | the response one exchange collects: the chunks up to the stop point, concatenated |
| Exchange.StopsAtUnique | pc_application/src/mainwindow.cpp:214-218 | the stop point is unique |
| Exchange.ReadResponse | pc_application/src/mainwindow.cpp:214-218 | the loop stops at the stop point, and its buffer is the concatenation of the chunks read |
| Exchange.ReadResponseIsReply | pc_application/src/mainwindow.cpp:214-218 | the loop reads exactly `Consumed` chunks and collects exactly `Reply` |
| Exchange.ConcatPrefix | pc_application/src/mainwindow.cpp:214-218 | the buffer after any number of chunks is a prefix of everything the device sent |
| Exchange.ReplyIsPrefix | pc_application/src/mainwindow.cpp:214-224 | the response is what the device sent, in order, untrimmed, up to the stop |
| Exchange.StopsOnTerminatedChunk | pc_application/src/mainwindow.cpp:217 | a chunk that makes the buffer end with a line feed is the last one read |
| Exchange.EmptyReplyMeansTimeout | pc_application/src/mainwindow.cpp:215-220 | an empty response means every chunk was read and the last wait timed out |
| Exchange.InteriorNewlineExample | pc_application/src/mainwindow.cpp:217 | a line feed inside the buffer does not stop reading; only one at its end does |
| Exchange.UnterminatedExample | pc_application/main_new.cpp:216-223 | a device that sends `7` and falls silent yields the response `7` |
| View.Refusal | pc_application/src/mainwindow.cpp:105-112 | the lines `check_input` appends for a verdict: none on acceptance, else its refusal message |
| View.RefusalLines | pc_application/src/mainwindow.cpp:98-114 | the check logs at most one line, and none exactly when it accepts |
| View.RefusalTextsDiffer | pc_application/src/mainwindow.cpp:105-112 | the division-by-zero and the format messages differ |
| View.NoResponseReadsLikeAPayload | pc_application/src/mainwindow.cpp:220-224 | the no-response line reads exactly like the response line for a device that answers with that sentence |
| MainWindow.ResponseLine | pc_application/src/mainwindow.cpp:220-224 | the log line for a collected response: "No response from µC." when it is empty, else the response |
| MainWindow.ResponseErrors | pc_application/src/mainwindow.cpp:220-222 | the error-log entries for a collected response: one naming the calculation when it is empty, else none |
| MainWindow.EmptyResponseReported | pc_application/src/mainwindow.cpp:220-225 | an empty response is never logged as a payload; exactly then one error-log entry is written |
| MainWindow.Window.constructor | pc_application/src/mainwindow.cpp:20-84 | starts unconnected, with input and send disabled, a red LED and the flags false; then refreshes the ports, so the selector holds them in order and the first is selected |
| MainWindow.Window.SelectPort | pc_application/src/mainwindow.cpp:171 | the selected port becomes the one the user picked |
| MainWindow.Window.RefreshPorts | pc_application/src/mainwindow.cpp:129-156 | the selector holds exactly the listed ports in order, and index 0 is selected (none when the list is empty); "No COM ports available." is logged when the list is empty, else "COM ports refreshed."; the loss line follows only when the list is empty and a connection was made before |
| MainWindow.Window.ToggleConnection | pc_application/src/mainwindow.cpp:160-200 | closes an open port, so `isConnected` becomes false; with no port selected, makes no open attempt and reports "No COM port selected."; configures the selected port with the fixed settings; a successful open sets `isConnected` and `wasConnectedOnce`; a failed one leaves the port closed and reports "Could not connect!"; `wasConnectedOnce` is never reset |
| MainWindow.Window.ShowConnection | pc_application/src/mainwindow.cpp:184-189 | input, send button, button label, LED and `isConnected` follow the connection |
| MainWindow.Window.ReportConnectionError | pc_application/src/mainwindow.cpp:195-199 | a caught connection error goes to the error log and to the log view |
| MainWindow.Window.CheckInput | pc_application/src/mainwindow.cpp:88-126 | succeeds exactly when the verdict is Accepted; logs the refusal otherwise |
| MainWindow.Window.SendCalculation | pc_application/src/mainwindow.cpp:203-234 | refused input writes nothing; accepted input on a closed port writes nothing and logs "Error: Not connected!"; on an open port the comma-to-dot text and one line feed are written, and the text and the collected response are logged; an empty response is reported as missing, in the log view and the error log |
| MainNew.Window.constructor | pc_application/main_new.cpp:50-109 | starts unconnected with the timer stopped and the prompt "Select COM Port and Connect:"; then refreshes the ports, so the selector holds them in order and the first is selected |
| MainNew.Window.SelectPort | pc_application/main_new.cpp:140 | the selected port becomes the one the user picked |
| MainNew.Window.RefreshPorts | pc_application/main_new.cpp:113-126 | the selector holds exactly the listed ports in order, and index 0 is selected (none when the list is empty); "No COM ports available." exactly when the list is empty, else "COM ports refreshed." |
| MainNew.Window.ToggleConnection | pc_application/main_new.cpp:128-166 | disconnecting closes the port, disables input and stops the timer; with no port selected, makes no open attempt and starts no timer; a successful open starts the timer at 100 ms and enables input; a failed one only logs |
| MainNew.Window.Disconnect | pc_application/main_new.cpp:131-138 | the port is closed, the timer stopped, the prompt asks to connect, "Disconnected." is logged |
| MainNew.Window.Connect | pc_application/main_new.cpp:145-160 | configures the selected port; on success the timer runs at 100 ms and "Connected to <port>." is logged, on failure only the error is logged |
| MainNew.Window.ReportConnectionError | pc_application/main_new.cpp:162-165 | a caught connection error is logged |
| MainNew.Window.PortClosedExternally | pc_application/main_new.cpp:170 | the device goes away: the port is closed and nothing else changes |
| MainNew.Window.CheckConnection | pc_application/main_new.cpp:168-177 | changes nothing while the port is open; when it is closed, stops the timer, disables input and logs the loss line; the loss line can therefore not repeat until a new connection |
| MainNew.Window.CheckInput | pc_application/main_new.cpp:179-200 | succeeds exactly when the verdict is Accepted; logs the refusal otherwise |
| MainNew.Window.SendCalculation | pc_application/main_new.cpp:202-227 | refused input writes nothing; on an open port the comma-to-dot text and one line feed are written, and "Response: " plus the buffer is logged even when empty; otherwise "Error: Not connected!" |
| MainNew.Window.Transmit | pc_application/main_new.cpp:212-226 | the send after a successful check, as above |
| MainCalculator.Window.constructor | pc_application/main_calculator.cpp:37-76 | starts unconnected with input and send disabled and the prompt "Please connect to the device first." |
| MainCalculator.Window.ToggleConnection | pc_application/main_calculator.cpp:83-130 | closing always disables input and send; connecting always targets COM3 with the fixed settings; success logs "Successfully connected." and asks for an operation; a failure leaves the port closed and input disabled |
| MainCalculator.Window.SendCalculation | pc_application/main_calculator.cpp:131-156 | no validation: writes the raw input and one line feed; "Sent: " shows the line feed too; the response is logged even when empty; "Error: Not connected!" when closed |

## Left out

- Widget construction, layout, slot wiring and the window title are not modelled. The same goes for `QMessageBox::warning`, `saveLog` and `exitApplication`. Set-enabled states, the button label, the LED colour and the prompt are fields.
- The error-log file is a sequence of entries. The time stamp `writeErrorLog` puts in front of each entry, and the file itself, are left out.
- The catch-all handlers that log unexpected exceptions (for example `mainwindow.cpp:76-83`, `116-125`, `148-155`, `229-233`) are left out: none of the modelled operations throws anything except the two connection errors, which are modelled.
- `QSerialPortInfo::availablePorts` is the parameter `availablePorts`. The outcome of `QSerialPort::open` is the parameter `openSucceeds`. The device's output is the parameter `chunks`.
- The model has no clock: the 1000 ms wait and the 100 ms timer period are constants only. A timer tick is the method `CheckConnection`, which the environment may call between the other operations. The device going away is the method `PortClosedExternally`, modelled for `main_new.cpp` only.
- `MainWindow.Window` and `MainCalculator.Window` leave out a port that closes by itself. Both revisions test `isOpen()` (`mainwindow.cpp:162`, `:210`; `main_calculator.cpp:87`, `:133`), but nothing in them notices the port closing. If it did close, `mainwindow.cpp` would keep `isConnected`, the green LED and the enabled controls while logging "Error: Not connected!", and `main_calculator.cpp` would keep the prompt and the enabled controls. Their `Valid()` ties the flags, the LED and the controls to the port being open, so it holds only as long as the port closes through `ToggleConnection` alone.
- `isWritable()` is taken to equal `isOpen()`, because every revision opens the port for reading and writing.
- Chunks left unread after a response are not carried over to the next exchange. Each `SendCalculation` is given the chunks the device sends for that request.
- Text is a sequence of characters. The conversion of the request to bytes and of the response to a `QString` is the identity here.
- Validator.CheckSpec: `toDouble() == 0` is modelled as "every digit of the right operand is `0`". A literal so long that it underflows to zero in a double is not modelled.
- The program has one GUI thread: there is no background monitor, no lock, no activity flag and no busy state. Only a final `'\n'` stops reading a response; a `'\r'` does not. The response is logged untrimmed, an unterminated one included.
