/** The pointer events the plots receive. */
module Events {
  import opened Wrappers

  /** Where an event happened: the TIC plot, the mass-spectrum plot, or
      neither. */
  datatype Axes = TicAxes | SpectrumAxes | NoAxes

  /** A press, move or release. `x`/`y` are the data coordinates, None
      when the toolkit reports none. */
  datatype MouseEvent = MouseEvent(axes: Axes, button: int, x: Option<real>, y: Option<real>)

  /** One notch of the scroll wheel, `up` or down. */
  datatype ScrollEvent = ScrollEvent(axes: Axes, up: bool, x: Option<real>, y: Option<real>)

  const LeftButton: int := 1
}
