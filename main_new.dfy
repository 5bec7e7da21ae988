/**
  The previous revision of the calculator window: no error-log file and no
  LED, but a timer that, while a connection is up, checks every 100 ms that
  the port is still open and reports a lost connection once.
*/
module MainNew {
  import Validator
  import Exchange
  import Serial
  import View

  /** The period of the connection check, in milliseconds. */
  const CheckIntervalMs := 100

  class Window {
    // The serial port: open or not, its settings, and every write in order.
    var portOpen: bool
    var portName: string
    var portConfig: Serial.Config
    var written: seq<string>

    // The port selector: its items and the current index, -1 when it is empty.
    var portItems: seq<string>
    var currentIndex: int

    // The connection-check timer.
    var timerActive: bool
    var timerIntervalMs: nat

    // Widgets.
    var controls: View.Controls
    var prompt: View.Prompt

    var log: seq<View.Line>

    /** The number of connections made so far. */
    ghost var connections: nat

    /** The window's invariant: its widgets are wired consistently and losses are bounded. */
    ghost predicate Valid()
      reads this
    {
      Wired() && LossesBounded()
    }

    /**
      The selector index is in range; the timer runs exactly while the
      controls show a connection, and always while the port is open.
    */
    ghost predicate Wired()
      reads this`portItems, this`currentIndex, this`controls, this`portOpen, this`timerActive, this`timerIntervalMs
    {
      && -1 <= currentIndex < |portItems|
      && (currentIndex == -1 <==> portItems == [])
      && controls == View.ControlsFor(timerActive)
      && (portOpen ==> timerActive)
      && (timerActive ==> timerIntervalMs == CheckIntervalMs)
    }

    /**
      A running timer accounts for one connection and every loss line already
      logged for another, so at most one loss is reported per connection.
    */
    ghost predicate LossesBounded()
      reads this`log, this`timerActive, this`connections
    {
      LossCount() + (if timerActive then 1 else 0) <= connections
    }

    /** How many loss lines the log holds. */
    ghost function LossCount(): nat
      reads this`log
    {
      multiset(log)[View.ConnectionLost]
    }

    /** The selector's current text; empty when nothing is listed. */
    function SelectedPort(): string
      reads this`portItems, this`currentIndex, this`controls, this`portOpen, this`timerActive, this`timerIntervalMs
      requires Wired()
    {
      if currentIndex == -1 then "" else portItems[currentIndex]
    }

    constructor (availablePorts: seq<string>)
      ensures Valid()
      ensures !portOpen && !timerActive && prompt == View.SelectPort
      ensures written == [] && portItems == availablePorts
      ensures currentIndex == (if availablePorts == [] then -1 else 0)
      ensures log == [if availablePorts == [] then View.NoPorts else View.PortsRefreshed]
    {
      portOpen := false;
      portName := "";
      portConfig := Serial.Fixed;
      written := [];
      portItems := [];
      currentIndex := -1;
      timerActive := false;
      timerIntervalMs := 0;
      controls := View.ControlsFor(false);
      prompt := View.SelectPort;
      log := [];
      connections := 0;
      new;
      RefreshPorts(availablePorts);
    }

    /** The user picks another listed port. */
    method SelectPort(index: nat)
      requires Valid() && index < |portItems|
      modifies this`currentIndex
      ensures Valid() && currentIndex == index && SelectedPort() == portItems[index]
    {
      currentIndex := index;
    }

    /** Refills the selector from the ports the system lists now. */
    method RefreshPorts(availablePorts: seq<string>)
      requires Valid()
      modifies this`portItems, this`currentIndex, this`log
      ensures Valid()
      ensures portItems == availablePorts && currentIndex == (if availablePorts == [] then -1 else 0)
      ensures SelectedPort() == if availablePorts == [] then "" else availablePorts[0]
      ensures log == old(log) + [if availablePorts == [] then View.NoPorts else View.PortsRefreshed]
    {
      portItems, currentIndex := [], -1;
      for i := 0 to |availablePorts|
        invariant portItems == availablePorts[..i]
        invariant currentIndex == if i == 0 then -1 else 0
        invariant log == old(log)
      {
        portItems := portItems + [availablePorts[i]];
        if currentIndex == -1 {
          currentIndex := 0;
        }
      }
      log := log + [if availablePorts == [] then View.NoPorts else View.PortsRefreshed];
    }

    /**
      Closes an open port and stops the timer; otherwise configures the
      selected port and tries to open it, `openSucceeds` being the outcome of
      that attempt, and starts the timer when it opens. A failure is only
      logged.
    */
    method ToggleConnection(openSucceeds: bool)
      requires Valid()
      modifies this`portName, this`portConfig, this`portOpen, this`log, this`prompt, this`controls
      modifies this`timerActive, this`timerIntervalMs, this`connections
      ensures Valid()
      ensures old(portOpen) ==>
                && !portOpen && !timerActive && prompt == View.ConnectFirst
                && portName == old(portName) && portConfig == old(portConfig)
                && timerIntervalMs == old(timerIntervalMs) && connections == old(connections)
                && log == old(log) + [View.Disconnected]
      ensures !old(portOpen) && old(SelectedPort()) == "" ==>
                && !portOpen && timerActive == old(timerActive) && prompt == old(prompt)
                && portName == old(portName) && portConfig == old(portConfig)
                && timerIntervalMs == old(timerIntervalMs) && connections == old(connections)
                && log == old(log) + [View.ConnectError(View.NoPortSelected)]
      ensures !old(portOpen) && old(SelectedPort()) != "" ==>
                && portName == old(SelectedPort()) && portConfig == Serial.Fixed
                && portOpen == openSucceeds && prompt == old(prompt)
                && (openSucceeds ==>
                      && timerActive && timerIntervalMs == CheckIntervalMs
                      && connections == old(connections) + 1
                      && log == old(log) + [View.ConnectedTo(portName)])
                && (!openSucceeds ==>
                      && timerActive == old(timerActive)
                      && timerIntervalMs == old(timerIntervalMs) && connections == old(connections)
                      && log == old(log) + [View.ConnectError(View.CouldNotOpen)])
    {
      // The branches' contracts say everything this needs.
      hide Wired, LossesBounded, SelectedPort;
      if portOpen {
        Disconnect();
      } else {
        var selected := SelectedPort();
        if selected == "" {
          ReportConnectionError(View.NoPortSelected);
        } else {
          Connect(selected, openSucceeds);
        }
      }
    }

    /** The closing branch of `ToggleConnection`. */
    method Disconnect()
      requires Valid() && portOpen
      modifies this`portOpen, this`log, this`prompt, this`controls, this`timerActive
      ensures Valid()
      ensures !portOpen && !timerActive && prompt == View.ConnectFirst
      ensures log == old(log) + [View.Disconnected]
    {
      portOpen := false;
      log := log + [View.Disconnected];
      prompt := View.ConnectFirst;
      controls := View.ControlsFor(false);
      timerActive := false;
    }

    /** The opening branch of `ToggleConnection`, for a selected port. */
    method Connect(selected: string, openSucceeds: bool)
      requires Valid() && !portOpen
      modifies this`portName, this`portConfig, this`portOpen, this`log, this`controls
      modifies this`timerActive, this`timerIntervalMs, this`connections
      ensures Valid()
      ensures portName == selected && portConfig == Serial.Fixed && portOpen == openSucceeds
      ensures openSucceeds ==>
                && timerActive && timerIntervalMs == CheckIntervalMs
                && connections == old(connections) + 1
                && log == old(log) + [View.ConnectedTo(selected)]
      ensures !openSucceeds ==>
                && timerActive == old(timerActive)
                && timerIntervalMs == old(timerIntervalMs) && connections == old(connections)
                && log == old(log) + [View.ConnectError(View.CouldNotOpen)]
    {
      hide SelectedPort, View.ControlsFor;
      portName := selected;
      portConfig := Serial.Fixed;
      portOpen := openSucceeds;
      if portOpen {
        log := log + [View.ConnectedTo(selected)];
        controls := View.ControlsFor(true);
        timerActive, timerIntervalMs := true, CheckIntervalMs;
        connections := connections + 1;
      } else {
        ReportConnectionError(View.CouldNotOpen);
      }
    }

    /** What the handler does with a connection error it caught: it logs it. */
    method ReportConnectionError(failure: View.ConnectFailure)
      requires Valid()
      modifies this`log
      ensures Valid()
      ensures log == old(log) + [View.ConnectError(failure)]
    {
      log := log + [View.ConnectError(failure)];
    }

    /** The device goes away: the port is no longer open, and nothing else changes. */
    method PortClosedExternally()
      requires Valid()
      modifies this`portOpen
      ensures Valid() && !portOpen
    {
      portOpen := false;
    }

    /**
      A tick of the running timer. When the port is no longer open the
      timer stops, the loss is logged and the window returns to its
      unconnected look; otherwise nothing happens.
    */
    method CheckConnection()
      requires Valid() && timerActive
      modifies this`timerActive, this`log, this`controls
      ensures Valid()
      ensures old(portOpen) ==> timerActive && log == old(log) && controls == old(controls)
      ensures !old(portOpen) ==>
                && !timerActive && log == old(log) + [View.ConnectionLost]
                && controls == View.ControlsFor(false)
    {
      if !portOpen {
        timerActive := false;
        log := log + [View.ConnectionLost];
        controls := View.ControlsFor(false);
      }
    }

    /** Validates the input and logs why it is refused. */
    method CheckInput(input: string) returns (ok: bool)
      requires Valid()
      modifies this`log
      ensures Valid()
      ensures ok <==> Validator.Check(input) == Validator.Accepted
      ensures log == old(log) + View.Refusal(Validator.Check(input))
    {
      var verdict := Validator.Check(input);
      log := log + View.Refusal(verdict);
      ok := verdict == Validator.Accepted;
    }

    /**
      Validates the input, then, if the port is open, writes it with commas
      replaced by dots and a line feed, and logs the response, empty or not.
    */
    method SendCalculation(input: string, chunks: seq<string>)
      requires Valid()
      modifies this`log, this`written
      ensures Valid()
      ensures Validator.Check(input) != Validator.Accepted ==>
                && written == old(written)
                && log == old(log) + View.Refusal(Validator.Check(input))
      ensures Validator.Check(input) == Validator.Accepted && !portOpen ==>
                && written == old(written)
                && log == old(log) + [View.NotConnected]
      ensures Validator.Check(input) == Validator.Accepted && portOpen ==>
                var calculation := Validator.Sanitize(input);
                && written == old(written) + [calculation + "\n"]
                && log == old(log) + [View.Sent(calculation), View.Response(Exchange.Reply(chunks))]
    {
      // The scanner behind the verdict plays no part in this proof.
      hide Validator.Check;
      var ok := CheckInput(input);
      if ok {
        Transmit(Validator.Sanitize(input), chunks);
      }
    }

    /** The part of `SendCalculation` after a successful check. */
    method Transmit(calculation: string, chunks: seq<string>)
      requires Valid()
      modifies this`log, this`written
      ensures Valid()
      ensures !portOpen ==> written == old(written) && log == old(log) + [View.NotConnected]
      ensures portOpen ==>
                && written == old(written) + [calculation + "\n"]
                && log == old(log) + [View.Sent(calculation), View.Response(Exchange.Reply(chunks))]
    {
      // The port is opened for reading and writing, so an open port is writable.
      if portOpen {
        written := written + [calculation + "\n"];
        var response, consumed := Exchange.ReadResponse(chunks);
        Exchange.ReadResponseIsReply(chunks, response, consumed);
        log := log + [View.Sent(calculation), View.Response(response)];
      } else {
        log := log + [View.NotConnected];
      }
    }
  }
}
