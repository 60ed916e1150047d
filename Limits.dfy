/** The IEEE double constants the source compares against, as exact reals. */
module Limits {
  /** double.MaxValue: (2 - 2^-52) * 2^1023. */
  const MaxValue: real := 179769313486231570814527423731704356798070567525844996598917476803157260780028538760589558632766878171540458953514382464234321326889464182768467546703537516986049910576551282076245490090389328944075868508455133942304583236903222948165808559332123348274797826204144723168738177180919299881250404026184124858368.0

  /** double.MinValue is the negated maximum (not the least positive value). */
  const MinValue: real := -MaxValue

  /** double.Epsilon: the least positive subnormal, 2^-1074. */
  const Epsilon: real := 1.0 / 202402253307310618352495346718917307049556649764142118356901358027430339567995346891960383701437124495187077864316811911389808737385793476867013399940738509921517424276566361364466907742093216341239767678472745068562007483424692698618103355649159556340810056512358769552333414615230502532186327508646006263307707741093494784.0
}
