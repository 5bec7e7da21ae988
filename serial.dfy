/** The serial-port settings every revision of the front end configures. */
module Serial {

  datatype Parity = NoParity | EvenParity | OddParity | SpaceParity | MarkParity

  datatype FlowControl = NoFlowControl | HardwareControl | SoftwareControl

  datatype Config = Config(baudRate: nat, dataBits: nat, parity: Parity, stopBits: nat, flowControl: FlowControl)

  /** 9600 baud, 8 data bits, no parity, one stop bit, no flow control. */
  const Fixed := Config(9600, 8, NoParity, 1, NoFlowControl)

  /** The only port the earliest revision connects to. */
  const DefaultPortName := "COM3"
}
