/** The device seam's vocabulary: one reading of one signal, and its quality. */
module Readings {
  import opened Common

  /** A JSON value. Only the numeric reading of it matters to the deadband; numbers are reals, so
      rounding is not modelled. */
  datatype Json = Num(number: real) | Text(text: string) | Composite(rendered: string)
  {
    function AsNumber(): Option<real> {
      if Num? then Some(number) else None
    }
  }

  datatype Quality = Good | Uncertain | Bad

  /** How bad a quality is. */
  function Severity(q: Quality): nat {
    match q
    case Good => 0
    case Uncertain => 1
    case Bad => 2
  }

  type Extras = map<string, Json>

  datatype Reading = Reading(
    signalId: string,
    name: Option<string>,
    value: Option<Json>,
    quality: Quality,
    qualityRaw: Option<string>,
    sourceTs: Option<string>,
    captureTs: Option<string>,
    receivedTs: Option<string>,
    extra: Option<Extras>,
    channel: Option<string>,
    componentPath: Option<string>)
  {
    function Numeric(): Option<real> {
      if value.Some? then value.value.AsNumber() else None
    }

    /** What a consumer is told about the value: the verdict and the reason behind it. */
    function Verdict(): (Quality, Option<string>) {
      (quality, qualityRaw)
    }
  }

  function BadReading(signalId: string, raw: string): Reading {
    Reading(signalId, None, None, Bad, Some(raw), None, None, None, None, None, None)
  }
}
