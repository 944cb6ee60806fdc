/** The two kinds of attendance events that kiosks and server share. */
module Events {
  datatype EventType = ClockIn | ClockOut
}
