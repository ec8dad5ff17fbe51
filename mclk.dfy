/** `i2s_mclk_gpio_select` of main/i2s_example_main.c: routes the master
    clock of an I2S port to GPIO0, GPIO1 or GPIO3. The register writes
    (`PIN_FUNC_SELECT`, `WRITE_PERI_REG`) are not performed here: the
    function returns which pin function would be selected and which value
    would be written to `PIN_CTRL`. */
module Mclk {

  /** `I2S_NUM_MAX`: the ports are `I2S_NUM_0` and `I2S_NUM_1`. */
  const I2sNumMax: nat := 2

  /** `esp_err_t` codes. */
  const EspOk: int := 0
  const EspErrInvalidArg: int := 0x102

  /** The IO_MUX function selected for the clock pin. */
  datatype PinFunction =
    | Gpio0ClkOut1   // PERIPHS_IO_MUX_GPIO0_U, FUNC_GPIO0_CLK_OUT1
    | U0TxdClkOut3   // PERIPHS_IO_MUX_U0TXD_U, FUNC_U0TXD_CLK_OUT3
    | U0RxdClkOut2   // PERIPHS_IO_MUX_U0RXD_U, FUNC_U0RXD_CLK_OUT2

  /** What a successful call writes: the pin function and `PIN_CTRL`. */
  datatype MclkRoute = MclkRoute(pinFunction: PinFunction, pinCtrl: int)

  /** The outcome of a call: `ESP_OK` with the register effects, or
      `ESP_ERR_INVALID_ARG` with none. */
  datatype Selection = Selected(route: MclkRoute) | InvalidArg

  /** The `esp_err_t` the source returns for an outcome. */
  function ErrorCode(r: Selection): (code: int)
    ensures code == EspOk <==> r.Selected?
    ensures r.InvalidArg? ==> code == EspErrInvalidArg
  {
    if r.Selected? then EspOk else EspErrInvalidArg
  }

  /** The port number is checked first, then the GPIO; a valid pair selects
      its pin function and `PIN_CTRL` value. `i2s_port_t` is an unsigned
      enumeration, `gpio_num_t` a signed one. */
  function MclkGpioSelect(i2sNum: nat, gpioNum: int): (r: Selection)
    ensures r.InvalidArg? <==> i2sNum >= I2sNumMax || !(gpioNum == 0 || gpioNum == 1 || gpioNum == 3)
  {
    if i2sNum >= I2sNumMax then InvalidArg
    else if gpioNum != 0 && gpioNum != 1 && gpioNum != 3 then InvalidArg
    else if i2sNum == 0 then
      if gpioNum == 0 then Selected(MclkRoute(Gpio0ClkOut1, 0xFFF0))
      else if gpioNum == 1 then Selected(MclkRoute(U0TxdClkOut3, 0xF0F0))
      else Selected(MclkRoute(U0RxdClkOut2, 0xFF00))
    else
      if gpioNum == 0 then Selected(MclkRoute(Gpio0ClkOut1, 0xFFFF))
      else if gpioNum == 1 then Selected(MclkRoute(U0TxdClkOut3, 0xF0FF))
      else Selected(MclkRoute(U0RxdClkOut2, 0xFF0F))
  }

  /** The `PIN_CTRL` values as a table indexed by (port, gpio). */
  const PinCtrlTable: map<(nat, int), int> :=
    map[(0, 0) := 0xFFF0, (0, 1) := 0xF0F0, (0, 3) := 0xFF00,
        (1, 0) := 0xFFFF, (1, 1) := 0xF0FF, (1, 3) := 0xFF0F]

  /** The selection succeeds exactly for the six pairs of the table, and
      then writes the table's value. */
  lemma MatchesTable(i2sNum: nat, gpioNum: int)
    ensures MclkGpioSelect(i2sNum, gpioNum).Selected? <==> (i2sNum, gpioNum) in PinCtrlTable
    ensures MclkGpioSelect(i2sNum, gpioNum).Selected? ==>
              MclkGpioSelect(i2sNum, gpioNum).route.pinCtrl == PinCtrlTable[(i2sNum, gpioNum)]
  {
  }

  /** The pin function depends on the GPIO only, not on the port; for the
      same GPIO, port 1 writes port 0's `PIN_CTRL` value with its low
      nibble (the CLK_OUT1 source) set to 0xF, and port 0's value has that
      nibble clear. */
  lemma PortIndependence(gpioNum: int)
    requires gpioNum == 0 || gpioNum == 1 || gpioNum == 3
    ensures MclkGpioSelect(0, gpioNum).Selected? && MclkGpioSelect(1, gpioNum).Selected?
    ensures MclkGpioSelect(0, gpioNum).route.pinFunction == MclkGpioSelect(1, gpioNum).route.pinFunction
    ensures MclkGpioSelect(0, gpioNum).route.pinCtrl % 16 == 0
    ensures MclkGpioSelect(1, gpioNum).route.pinCtrl == MclkGpioSelect(0, gpioNum).route.pinCtrl + 0xF
  {
  }
}
