/**
  The earliest revision of the calculator window: it always connects to COM3,
  sends the input exactly as typed with a line feed appended, and does not
  check it first. The prompt above the input field follows the connection.
*/
module MainCalculator {
  import Exchange
  import Serial
  import View

  class Window {
    // The serial port: open or not, its settings, and every write in order.
    var portOpen: bool
    var portName: string
    var portConfig: Serial.Config
    var written: seq<string>

    // Widgets.
    var controls: View.Controls
    var prompt: View.Prompt

    var log: seq<View.Line>

    /**
      The controls and the prompt follow the port, and an open port is COM3
      with the fixed settings.
    */
    ghost predicate Valid()
      reads this
    {
      && controls == View.ControlsFor(portOpen)
      && prompt == (if portOpen then View.EnterOperation else View.ConnectFirst)
      && (portOpen ==> portName == Serial.DefaultPortName && portConfig == Serial.Fixed)
    }

    constructor ()
      ensures Valid() && !portOpen
      ensures log == [] && written == []
    {
      portOpen := false;
      portName := "";
      portConfig := Serial.Fixed;
      written := [];
      controls := View.ControlsFor(false);
      prompt := View.ConnectFirst;
      log := [];
    }

    /**
      Closes an open port; otherwise configures COM3 and tries to open it,
      `openSucceeds` being the outcome of that attempt. A failure is only
      logged.
    */
    method ToggleConnection(openSucceeds: bool)
      requires Valid()
      modifies this`portOpen, this`portName, this`portConfig, this`controls, this`prompt, this`log
      ensures Valid()
      ensures old(portOpen) ==>
                && !portOpen && portName == old(portName) && portConfig == old(portConfig)
                && log == old(log) + [View.Disconnected]
      ensures !old(portOpen) ==>
                && portName == Serial.DefaultPortName && portConfig == Serial.Fixed
                && portOpen == openSucceeds
                && log == old(log) + [if openSucceeds then View.SuccessfullyConnected
                                      else View.ConnectError(View.CouldNotOpen)]
    {
      if portOpen {
        portOpen := false;
        controls := View.ControlsFor(false);
        log := log + [View.Disconnected];
        prompt := View.ConnectFirst;
      } else {
        portName := Serial.DefaultPortName;
        portConfig := Serial.Fixed;
        portOpen := openSucceeds;
        if portOpen {
          controls := View.ControlsFor(true);
          log := log + [View.SuccessfullyConnected];
          prompt := View.EnterOperation;
        } else {
          log := log + [View.ConnectError(View.CouldNotOpen)];
        }
      }
    }

    /**
      If the port is open, writes the input with a line feed appended and
      logs what was sent and the response, empty or not.
    */
    method SendCalculation(input: string, chunks: seq<string>)
      requires Valid()
      modifies this`log, this`written
      ensures Valid()
      ensures portOpen ==>
                && written == old(written) + [input + "\n"]
                && log == old(log) + [View.Sent(input + "\n"), View.Response(Exchange.Reply(chunks))]
      ensures !portOpen ==> written == old(written) && log == old(log) + [View.NotConnected]
    {
      // The port is opened for reading and writing, so an open port is writable.
      if portOpen {
        var calculation := input + "\n";
        written := written + [calculation];
        var response, consumed := Exchange.ReadResponse(chunks);
        Exchange.ReadResponseIsReply(chunks, response, consumed);
        log := log + [View.Sent(calculation), View.Response(response)];
      } else {
        log := log + [View.NotConnected];
      }
    }
  }
}
