/** The light state `notifyHR` sends for a heart rate: always on, full
    brightness, red hue, with a saturation that grows from white at 70 beats
    per minute to fully red at 170. */
module Notify {
  import opened Bytes

  /** Heart rates at which the light is fully white and fully red. */
  const BaseHR: int := 70
  const MaxHR: int := 170

  /** The constant parts of the light state. */
  const Brightness: uint8 := 255
  const RedHue: bv16 := 65535

  /** The light state written to the bridge (`state` in `notifyHR`). */
  datatype LightState = LightState(on: bool, bri: uint8, hue: bv16, sat: uint8)

  /** Integer division truncating toward zero, as Go's `/` on `int`. */
  function TruncDiv(a: int, b: int): (q: int)
    requires b > 0
    ensures a >= 0 ==> q == a / b
    ensures a < 0 ==> -a / b == -q
  {
    if a >= 0 then a / b else -((-a) / b)
  }

  /** `(hr - 70) * 255 / (170 - 70)` clamped to 0..255. */
  function Saturation(hr: bv8): (sat: uint8)
    ensures hr as int <= BaseHR ==> sat == 0
    ensures hr as int >= MaxHR ==> sat == 255
    ensures BaseHR <= hr as int <= MaxHR ==> sat == (hr as int - BaseHR) * 255 / (MaxHR - BaseHR)
  {
    var raw := TruncDiv((hr as int - BaseHR) * 255, MaxHR - BaseHR);
    if raw < 0 then 0 else if raw > 255 then 255 else raw
  }

  /** The light gets redder as the heart rate goes up: the saturation never
      decreases with the rate. */
  lemma SaturationMonotone(a: bv8, b: bv8)
    requires a <= b
    ensures Saturation(a) <= Saturation(b)
  {
    if BaseHR <= a as int && b as int <= MaxHR {
      DivMonotone((a as int - BaseHR) * 255, (b as int - BaseHR) * 255);
    }
  }

  /** Dividing by 100 keeps the order of non-negative numbers. */
  lemma DivMonotone(p: int, q: int)
    requires 0 <= p <= q
    ensures p / 100 <= q / 100
  {
  }

  /** The state `notifyHR` writes for `hr`; the sensor id plays no part. */
  function NotifyHR(sensorID: string, hr: bv8): (st: LightState)
    ensures st.on && st.bri == Brightness && st.hue == RedHue
    ensures st.sat == Saturation(hr)
  {
    LightState(true, Brightness, RedHue, Saturation(hr))
  }
}
