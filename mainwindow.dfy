/**
  The current revision of the calculator window: a port selector refilled on
  demand, a connect/disconnect button with a status LED, input validation
  before sending, and an error-log file next to the log view.
*/
module MainWindow {
  import Validator
  import Exchange
  import Serial
  import View

  /** The log line for a collected response; an empty one is reported as missing. */
  function ResponseLine(response: string): View.Line {
    if response == [] then View.NoResponse else View.Response(response)
  }

  /** The error-log entries for a collected response: one when it is empty. */
  function ResponseErrors(calculation: string, response: string): seq<View.ErrorEntry> {
    if response == [] then [View.NoResponseAfter(calculation)] else []
  }

  /**
    An empty response is never logged as a payload, and it is exactly the
    case that also writes an error-log entry.
  */
  lemma EmptyResponseReported(calculation: string, response: string)
    ensures ResponseLine(response) != View.Response([])
    ensures ResponseErrors(calculation, response) != [] <==> ResponseLine(response) == View.NoResponse
    ensures |ResponseErrors(calculation, response)| <= 1
  {
  }

  class Window {
    // The serial port: open or not, its settings, and every write in order.
    var portOpen: bool
    var portName: string
    var portConfig: Serial.Config
    var written: seq<string>

    // The port selector: its items and the current index, -1 when it is empty.
    var portItems: seq<string>
    var currentIndex: int

    var isConnected: bool
    var wasConnectedOnce: bool

    // Widgets the connection state drives; the LED is green or red.
    var controls: View.Controls
    var ledGreen: bool

    // The log view and the error-log file.
    var log: seq<View.Line>
    var errorLog: seq<View.ErrorEntry>

    /**
      The flags agree with the port: connected exactly while the port is open,
      every connection is remembered, and the controls and the LED follow the
      connection.
    */
    ghost predicate Valid()
      reads this
    {
      && -1 <= currentIndex < |portItems|
      && (currentIndex == -1 <==> portItems == [])
      && isConnected == portOpen
      && (isConnected ==> wasConnectedOnce)
      && controls == View.ControlsFor(isConnected)
      && ledGreen == isConnected
    }

    /** The selector's current text; empty when nothing is listed. */
    function SelectedPort(): string
      reads this
      requires Valid()
    {
      if currentIndex == -1 then "" else portItems[currentIndex]
    }

    constructor (availablePorts: seq<string>)
      ensures Valid()
      ensures !portOpen && !wasConnectedOnce
      ensures written == [] && errorLog == []
      ensures portItems == availablePorts && currentIndex == (if availablePorts == [] then -1 else 0)
      ensures log == [if availablePorts == [] then View.NoPorts else View.PortsRefreshed]
    {
      portOpen := false;
      portName := "";
      portConfig := Serial.Fixed;
      written := [];
      portItems := [];
      currentIndex := -1;
      isConnected := false;
      wasConnectedOnce := false;
      controls := View.ControlsFor(false);
      ledGreen := false;
      log := [];
      errorLog := [];
      new;
      RefreshPorts(availablePorts);
    }

    /** The user picks another listed port. */
    method SelectPort(index: nat)
      requires Valid() && index < |portItems|
      modifies this`currentIndex
      ensures Valid() && currentIndex == index && SelectedPort() == portItems[index]
    {
      currentIndex := index;
    }

    /**
      Refills the selector from the ports the system lists now. The loss line
      follows only when no port is listed and a connection was made before.
    */
    method RefreshPorts(availablePorts: seq<string>)
      requires Valid()
      modifies this`portItems, this`currentIndex, this`log
      ensures Valid()
      ensures portItems == availablePorts && currentIndex == (if availablePorts == [] then -1 else 0)
      ensures SelectedPort() == if availablePorts == [] then "" else availablePorts[0]
      ensures availablePorts == [] ==>
                log == old(log) + [View.NoPorts] + (if wasConnectedOnce then [View.LostOrNoPorts] else [])
      ensures availablePorts != [] ==> log == old(log) + [View.PortsRefreshed]
    {
      portItems, currentIndex := [], -1;
      for i := 0 to |availablePorts|
        invariant portItems == availablePorts[..i]
        invariant currentIndex == if i == 0 then -1 else 0
        invariant log == old(log)
      {
        portItems := portItems + [availablePorts[i]];
        if currentIndex == -1 {
          currentIndex := 0;
        }
      }
      log := log + [if availablePorts == [] then View.NoPorts else View.PortsRefreshed];
      if availablePorts == [] && wasConnectedOnce {
        log := log + [View.LostOrNoPorts];
      }
    }

    /**
      Closes an open port; otherwise configures the selected port and tries
      to open it, `openSucceeds` being the outcome of that attempt. A failure
      is logged in the view and in the error log and changes no flag.
    */
    method ToggleConnection(openSucceeds: bool)
      requires Valid()
      modifies this
      ensures Valid()
      ensures portItems == old(portItems) && currentIndex == old(currentIndex) && written == old(written)
      ensures old(wasConnectedOnce) ==> wasConnectedOnce
      ensures old(portOpen) ==>
                && !portOpen && portName == old(portName) && portConfig == old(portConfig)
                && wasConnectedOnce == old(wasConnectedOnce)
                && log == old(log) + [View.Disconnected] && errorLog == old(errorLog)
      ensures !old(portOpen) && old(SelectedPort()) == "" ==>
                && !portOpen && portName == old(portName) && portConfig == old(portConfig)
                && wasConnectedOnce == old(wasConnectedOnce)
                && log == old(log) + [View.ConnectError(View.NoPortSelected)]
                && errorLog == old(errorLog) + [View.ToggleError(View.NoPortSelected)]
      ensures !old(portOpen) && old(SelectedPort()) != "" ==>
                && portName == old(SelectedPort()) && portConfig == Serial.Fixed
                && portOpen == openSucceeds
                && (openSucceeds ==>
                      && wasConnectedOnce
                      && log == old(log) + [View.ConnectedTo(portName)] && errorLog == old(errorLog))
                && (!openSucceeds ==>
                      && wasConnectedOnce == old(wasConnectedOnce)
                      && log == old(log) + [View.ConnectError(View.CouldNotOpen)]
                      && errorLog == old(errorLog) + [View.ToggleError(View.CouldNotOpen)])
    {
      if portOpen {
        portOpen := false;
        log := log + [View.Disconnected];
        ShowConnection(false);
      } else {
        var selected := SelectedPort();
        if selected == "" {
          ReportConnectionError(View.NoPortSelected);
        } else {
          portName := selected;
          portConfig := Serial.Fixed;
          portOpen := openSucceeds;
          if portOpen {
            log := log + [View.ConnectedTo(selected)];
            ShowConnection(true);
            wasConnectedOnce := true;
          } else {
            ReportConnectionError(View.CouldNotOpen);
          }
        }
      }
    }

    /** The controls, the LED and the flag follow the connection. */
    method ShowConnection(connected: bool)
      modifies this`controls, this`ledGreen, this`isConnected
      ensures controls == View.ControlsFor(connected)
      ensures ledGreen == connected && isConnected == connected
    {
      controls := View.ControlsFor(connected);
      ledGreen := connected;
      isConnected := connected;
    }

    /** What the handler does with a connection error it caught. */
    method ReportConnectionError(failure: View.ConnectFailure)
      modifies this`log, this`errorLog
      ensures errorLog == old(errorLog) + [View.ToggleError(failure)]
      ensures log == old(log) + [View.ConnectError(failure)]
    {
      errorLog := errorLog + [View.ToggleError(failure)];
      log := log + [View.ConnectError(failure)];
    }

    /** Validates the input and logs why it is refused. */
    method CheckInput(input: string) returns (ok: bool)
      modifies this`log
      ensures ok <==> Validator.Check(input) == Validator.Accepted
      ensures log == old(log) + View.Refusal(Validator.Check(input))
    {
      var verdict := Validator.Check(input);
      log := log + View.Refusal(verdict);
      ok := verdict == Validator.Accepted;
    }

    /**
      Validates the input, then, if the port is open, writes it with commas
      replaced by dots and a line feed, and logs what the device answered.
    */
    method SendCalculation(input: string, chunks: seq<string>)
      requires Valid()
      modifies this`log, this`errorLog, this`written
      ensures Valid()
      ensures Validator.Check(input) != Validator.Accepted ==>
                && written == old(written) && errorLog == old(errorLog)
                && log == old(log) + View.Refusal(Validator.Check(input))
      ensures Validator.Check(input) == Validator.Accepted && !portOpen ==>
                && written == old(written) && errorLog == old(errorLog)
                && log == old(log) + [View.NotConnected]
      ensures Validator.Check(input) == Validator.Accepted && portOpen ==>
                var calculation := Validator.Sanitize(input);
                && written == old(written) + [calculation + "\n"]
                && log == old(log) + [View.Sent(calculation), ResponseLine(Exchange.Reply(chunks))]
                && errorLog == old(errorLog) + ResponseErrors(calculation, Exchange.Reply(chunks))
    {
      // The scanner behind the verdict plays no part in this proof.
      hide Validator.Check;
      var ok := CheckInput(input);
      if !ok {
        return;
      }
      var calculation := Validator.Sanitize(input);
      // The port is opened for reading and writing, so an open port is writable.
      if portOpen {
        written := written + [calculation + "\n"];
        log := log + [View.Sent(calculation)];
        var response, consumed := Exchange.ReadResponse(chunks);
        Exchange.ReadResponseIsReply(chunks, response, consumed);
        if response == [] {
          log := log + [View.NoResponse];
          errorLog := errorLog + [View.NoResponseAfter(calculation)];
        } else {
          log := log + [View.Response(response)];
        }
      } else {
        log := log + [View.NotConnected];
      }
    }
  }
}
