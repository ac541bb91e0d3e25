/** The unit choice of kbMb: a quantity given in kilobytes is shown in
    megabytes when it is strictly above 1024 KB, and in kilobytes otherwise.
    Only the unit and the scaled number are modelled; the two-decimal
    rendering of the number is not. */
module Units {

  datatype Unit = KB | MB

  /** A number together with the unit it is displayed in. */
  datatype Scaled = Scaled(value: real, unit: Unit)

  /** The quantity, in kilobytes, that a displayed value stands for. */
  function InKb(s: Scaled): real
  {
    match s.unit
    case KB => s.value
    case MB => s.value * 1024.0
  }

  /** kbMb: megabytes exactly when the value exceeds 1024 KB; the displayed
      number always stands for the same quantity, and a megabyte figure is
      always above 1. */
  function KbMb(b: real): (s: Scaled)
    ensures s.unit == MB <==> b > 1024.0
    ensures InKb(s) == b
    ensures s.unit == MB ==> s.value > 1.0
    ensures s.unit == KB ==> s.value <= 1024.0
  {
    if b > 1024.0 then Scaled(b / 1024.0, MB) else Scaled(b, KB)
  }

  /** Two quantities are shown in the same unit iff they lie on the same side
      of the 1024 KB threshold, and the displayed order agrees with the order
      of the quantities. */
  lemma KbMbOrder(a: real, b: real)
    requires a <= b
    ensures KbMb(a).unit == MB ==> KbMb(b).unit == MB
    ensures KbMb(a).unit == KbMb(b).unit ==> KbMb(a).value <= KbMb(b).value
  {
  }

  /** The examples of the doc comment, and the boundary: 1024 stays in KB. */
  lemma KbMbExamples()
    ensures KbMb(2048.0) == Scaled(2.0, MB)
    ensures KbMb(100.0) == Scaled(100.0, KB)
    ensures KbMb(1024.0) == Scaled(1024.0, KB)
  {
  }
}
