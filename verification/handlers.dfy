/** The decisions of the two HTTP handlers (`readHandler`, `changeHandler`,
    restapi/restapi.go). A request names a device key, an item kind
    ("adcs", "tmpts" or "swts") and an item id; the handlers look the item up
    in slice order and choose the status code. The router, the response
    writer and the float formatting stay outside the model. */
module Handlers {
  import opened Wrappers
  import opened Serial
  import opened Btrd

  /** A response body, given symbolically: `AnalogText` is the `%.2f\n`
      rendering of an ADC value and `TemperatureText` the `%3.1f\n` rendering of
      a temperature in sixteenths of a degree. */
  datatype Body = NoBody | AnalogText(v: AnalogValue) | TemperatureText(t: int) | Text(s: string)

  /** A status code and body; a body written without `WriteHeader` goes out with 200. */
  datatype Response = Response(code: int, body: Body)

  const BadRequest := Response(400, NoBody)

  /** The index of the first element from `k` on that satisfies `p`. */
  function Find<T>(s: seq<T>, p: T -> bool, k: nat): (r: Option<nat>)
    requires k <= |s|
    ensures r.Some? ==> k <= r.value < |s| && p(s[r.value]) && forall j :: k <= j < r.value ==> !p(s[j])
    ensures r.None? ==> forall j :: k <= j < |s| ==> !p(s[j])
    decreases |s| - k
  {
    if k == |s| then None
    else if p(s[k]) then Some(k)
    else Find(s, p, k + 1)
  }

  /** `i` is the first ADC of `d` whose id is `id`. */
  predicate FirstAdc(d: Device, id: string, i: int)
  {
    0 <= i < |d.adcs| && d.adcs[i].id == id && forall j :: 0 <= j < i ==> d.adcs[j].id != id
  }

  predicate FirstTmpt(d: Device, id: string, i: int)
  {
    0 <= i < |d.tmpts| && d.tmpts[i].id == id && forall j :: 0 <= j < i ==> d.tmpts[j].id != id
  }

  predicate FirstSwt(d: Device, id: string, i: int)
  {
    0 <= i < |d.swts| && d.swts[i].id == id && forall j :: 0 <= j < i ==> d.swts[j].id != id
  }

  /** A switch the read handler can answer for: its id matches and its cache
      is 0 or 1 (the inner `switch` has no other case). */
  predicate Readable(s: Swt, id: string)
  {
    s.id == id && (s.value == 0 || s.value == 1)
  }

  /** `i` is the first switch of `d` the read handler can answer for. */
  predicate FirstReadableSwt(d: Device, id: string, i: int)
  {
    0 <= i < |d.swts| && Readable(d.swts[i], id) && forall j :: 0 <= j < i ==> !Readable(d.swts[j], id)
  }

  function SwitchText(v: int): string
  {
    if v == 1 then "true\n" else "false\n"
  }

  /** `readHandler`. It only reads cached values. */
  function ReadHandler(bt: map<string, Device>, devId: string, kind: string, itemId: string): (r: Response)
    ensures r.code == 200 || r == BadRequest
    ensures devId !in bt ==> r == BadRequest
    ensures kind != "adcs" && kind != "tmpts" && kind != "swts" ==> r == BadRequest
    ensures devId in bt && kind == "adcs" ==>
              && (r.code == 200 <==> exists i :: 0 <= i < |bt[devId].adcs| && bt[devId].adcs[i].id == itemId)
              && forall i :: FirstAdc(bt[devId], itemId, i) ==> r == Response(200, AnalogText(bt[devId].adcs[i].value))
    ensures devId in bt && kind == "tmpts" ==>
              && (r.code == 200 <==> exists i :: 0 <= i < |bt[devId].tmpts| && bt[devId].tmpts[i].id == itemId)
              && forall i :: FirstTmpt(bt[devId], itemId, i) ==> r == Response(200, TemperatureText(bt[devId].tmpts[i].value))
    ensures devId in bt && kind == "swts" ==>
              && (r.code == 200 <==> exists i :: 0 <= i < |bt[devId].swts| && Readable(bt[devId].swts[i], itemId))
              && forall i :: FirstReadableSwt(bt[devId], itemId, i) ==> r == Response(200, Text(SwitchText(bt[devId].swts[i].value)))
  {
    if devId !in bt then BadRequest
    else
      var d := bt[devId];
      if kind == "adcs" then
        match Find(d.adcs, (a: Adc) => a.id == itemId, 0)
        case Some(i) => Response(200, AnalogText(d.adcs[i].value))
        case None => BadRequest
      else if kind == "tmpts" then
        match Find(d.tmpts, (t: Tmpt) => t.id == itemId, 0)
        case Some(i) => Response(200, TemperatureText(d.tmpts[i].value))
        case None => BadRequest
      else if kind == "swts" then
        match Find(d.swts, (s: Swt) => Readable(s, itemId), 0)
        case Some(i) => Response(200, Text(SwitchText(d.swts[i].value)))
        case None => BadRequest
      else BadRequest
  }

  /** With every switch cache in {0, 1}, the first switch with a matching id
      answers, with "true\n" for 1 and "false\n" for 0, and a read of an
      existing switch is never refused. */
  lemma SwitchReadAnswers(bt: map<string, Device>, devId: string, itemId: string, i: int)
    requires devId in bt && SwitchesBinary(bt[devId])
    requires FirstSwt(bt[devId], itemId, i)
    ensures ReadHandler(bt, devId, "swts", itemId) == Response(200, Text(SwitchText(bt[devId].swts[i].value)))
    ensures bt[devId].swts[i].value == 1 ==> ReadHandler(bt, devId, "swts", itemId).body == Text("true\n")
    ensures bt[devId].swts[i].value == 0 ==> ReadHandler(bt, devId, "swts", itemId).body == Text("false\n")
  {
    assert FirstReadableSwt(bt[devId], itemId, i);
  }

  /** The outcome of a POST: the status code, the devices afterwards and the line afterwards. */
  datatype Change = Change(code: int, devices: map<string, Device>, line: Line)

  /** `SetBit` for "true", `ClearBit` for "false". */
  function Toggle(sw: Swt, port: Port, line: Line, on: bool): (x: Exchange<Swt>)
    ensures x.item == sw
  {
    if on then SetBit(sw, port, line) else ClearBit(sw, port, line)
  }

  /** The found-switch branch of `changeHandler`: command switch `i` of device
      `devId`, answer 200 on an acknowledgement and 500 otherwise, and write
      back the item the command returns, which is the item unchanged. */
  function Actuate(bt: map<string, Device>, devId: string, i: nat, on: bool, line: Line): (r: Change)
    requires devId in bt && i < |bt[devId].swts|
    ensures r.devices == bt
    ensures var x := Toggle(bt[devId].swts[i], bt[devId].port, line, on);
            && r.line == x.line
            && (r.code == 200 <==> x.status.Pass?)
            && (r.code == 500 <==> x.status.Fail?)
  {
    var d := bt[devId];
    var x := Toggle(d.swts[i], d.port, line, on);
    assert d.swts[i := x.item] == d.swts;
    var devices := bt[devId := d.(swts := d.swts[i := x.item])];
    assert devices == bt;
    Change(if x.status.Pass? then 200 else 500, devices, x.line)
  }

  /** The first switch with a matching id is the one `Find` returns. */
  lemma FindFirstSwt(d: Device, itemId: string, i: int)
    requires FirstSwt(d, itemId, i)
    ensures Find(d.swts, (s: Swt) => s.id == itemId, 0) == Some(i)
  {
    var f := Find(d.swts, (s: Swt) => s.id == itemId, 0);
    assert f.Some?;
    assert !(f.value < i) && !(i < f.value);
  }

  /** `changeHandler`. `body` is the request body, None when reading it fails;
      `line` is the line of the addressed device. The body check comes before
      the lookup, so the `default` case of the inner `switch` cannot be
      reached: a body that is not "true" is "false" there. */
  function ChangeHandler(bt: map<string, Device>, devId: string, kind: string, itemId: string, body: Option<string>, line: Line): (r: Change)
    ensures r.code == 200 || r.code == 400 || r.code == 500
    ensures r.devices == bt
    ensures devId !in bt || kind != "swts" ==> r.code == 400 && r.line == line
    ensures devId in bt && kind == "swts" && body.None? ==> r.code == 500 && r.line == line
    ensures devId in bt && kind == "swts" && body.Some? && body.value != "true" && body.value != "false" ==>
              r.code == 400 && r.line == line
    ensures devId in bt && kind == "swts" && (body == Some("true") || body == Some("false")) ==>
              && ((forall i :: 0 <= i < |bt[devId].swts| ==> bt[devId].swts[i].id != itemId) ==> r.code == 400 && r.line == line)
              && forall i :: FirstSwt(bt[devId], itemId, i) ==>
                   var d := bt[devId];
                   var x := if body == Some("true") then SetBit(d.swts[i], d.port, line) else ClearBit(d.swts[i], d.port, line);
                   && r.line == x.line
                   && (r.code == 200 <==> x.status.Pass?)
                   && (r.code == 500 <==> x.status.Fail?)
  {
    if devId !in bt || kind != "swts" then Change(400, bt, line)
    else if body.None? then Change(500, bt, line)
    else
      var state := body.value;
      if state != "true" && state != "false" then Change(400, bt, line)
      else
        match Find(bt[devId].swts, (s: Swt) => s.id == itemId, 0)
        case None => Change(400, bt, line)
        case Some(i) =>
          assert forall j :: FirstSwt(bt[devId], itemId, j) ==> j == i by {
            forall j | FirstSwt(bt[devId], itemId, j) { FindFirstSwt(bt[devId], itemId, j); }
          }
          Actuate(bt, devId, i, state == "true", line)
  }

  /** A POST does not touch the cache: a GET straight after it returns the
      value cached before it, even when the switch acknowledged. */
  lemma ReadAfterChange(bt: map<string, Device>, devId: string, itemId: string, body: Option<string>, line: Line)
    ensures var after := ChangeHandler(bt, devId, "swts", itemId, body, line);
            ReadHandler(after.devices, devId, "swts", itemId) == ReadHandler(bt, devId, "swts", itemId)
  {
  }
}
