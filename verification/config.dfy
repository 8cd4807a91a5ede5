/** Validation of the decoded configuration (`loadConfig`, restapi/restapi.go).
    The TOML text has already been decoded into a map from device key to
    device; `loadConfig` then walks that map, sets each device's id to its key
    and each item's back-reference to its device, and stops the process at the
    first required field that is empty. Nothing else is checked. */
module Config {
  import opened Wrappers
  import opened Serial
  import opened Btrd

  /** The required field a `log.Fatalf` of `loadConfig` names. */
  datatype Missing =
    | Baud | Devfile
    | AdcId | AdcCmdget
    | TmptId | TmptCmdlsb | TmptCmdmsb
    | SwtId | SwtCmdget | SwtCmdset | SwtCmdclr

  /** The process exits reporting this device key and field. */
  datatype Fatal = Fatal(dev: string, missing: Missing)

  predicate AdcValid(a: Adc)
  {
    a.id != "" && a.cmdget != ""
  }

  predicate TmptValid(t: Tmpt)
  {
    t.id != "" && t.cmdlsb != "" && t.cmdmsb != ""
  }

  predicate SwtValid(s: Swt)
  {
    s.id != "" && s.cmdget != "" && s.cmdset != "" && s.cmdclr != ""
  }

  /** Every field `loadConfig` requires of the device and its items is set. */
  predicate DeviceValid(d: Device)
  {
    && d.baud != 0
    && d.devfile != ""
    && (forall i :: 0 <= i < |d.adcs| ==> AdcValid(d.adcs[i]))
    && (forall i :: 0 <= i < |d.tmpts| ==> TmptValid(d.tmpts[i]))
    && (forall i :: 0 <= i < |d.swts| ==> SwtValid(d.swts[i]))
  }

  predicate ConfigValid(m: map<string, Device>)
  {
    forall k :: k in m ==> DeviceValid(m[k])
  }

  /** The device has an empty field of the kind `f` names. */
  predicate Lacks(d: Device, f: Missing)
  {
    match f
    case Baud => d.baud == 0
    case Devfile => d.devfile == ""
    case AdcId => exists i :: 0 <= i < |d.adcs| && d.adcs[i].id == ""
    case AdcCmdget => exists i :: 0 <= i < |d.adcs| && d.adcs[i].cmdget == ""
    case TmptId => exists i :: 0 <= i < |d.tmpts| && d.tmpts[i].id == ""
    case TmptCmdlsb => exists i :: 0 <= i < |d.tmpts| && d.tmpts[i].cmdlsb == ""
    case TmptCmdmsb => exists i :: 0 <= i < |d.tmpts| && d.tmpts[i].cmdmsb == ""
    case SwtId => exists i :: 0 <= i < |d.swts| && d.swts[i].id == ""
    case SwtCmdget => exists i :: 0 <= i < |d.swts| && d.swts[i].cmdget == ""
    case SwtCmdset => exists i :: 0 <= i < |d.swts| && d.swts[i].cmdset == ""
    case SwtCmdclr => exists i :: 0 <= i < |d.swts| && d.swts[i].cmdclr == ""
  }

  // The `switch` statements of `loadConfig`: the first true case is reported.

  function AdcMissing(a: Adc): Option<Missing>
  {
    if a.id == "" then Some(AdcId)
    else if a.cmdget == "" then Some(AdcCmdget)
    else None
  }

  function TmptMissing(t: Tmpt): Option<Missing>
  {
    if t.id == "" then Some(TmptId)
    else if t.cmdlsb == "" then Some(TmptCmdlsb)
    else if t.cmdmsb == "" then Some(TmptCmdmsb)
    else None
  }

  function SwtMissing(s: Swt): Option<Missing>
  {
    if s.id == "" then Some(SwtId)
    else if s.cmdget == "" then Some(SwtCmdget)
    else if s.cmdset == "" then Some(SwtCmdset)
    else if s.cmdclr == "" then Some(SwtCmdclr)
    else None
  }

  /** The report of the first item, in slice order from `k`, that has one. */
  function FirstMissing<T>(items: seq<T>, missing: T -> Option<Missing>, k: nat): (r: Option<Missing>)
    requires k <= |items|
    ensures r.None? <==> forall i :: k <= i < |items| ==> missing(items[i]).None?
    ensures r.Some? ==> exists i :: k <= i < |items| && missing(items[i]) == r
    decreases |items| - k
  {
    if k == |items| then None
    else if missing(items[k]).Some? then missing(items[k])
    else FirstMissing(items, missing, k + 1)
  }

  /** The checks `loadConfig` makes of one device, in its order. */
  function CheckDevice(d: Device): (r: Option<Missing>)
    ensures r.None? <==> DeviceValid(d)
    ensures r.Some? ==> Lacks(d, r.value)
  {
    if d.baud == 0 then Some(Baud)
    else if d.devfile == "" then Some(Devfile)
    else
      var a := FirstMissing(d.adcs, AdcMissing, 0);
      var t := FirstMissing(d.tmpts, TmptMissing, 0);
      var s := FirstMissing(d.swts, SwtMissing, 0);
      if a.Some? then a else if t.Some? then t else s
  }

  /** The device as `loadConfig` leaves it: its id set to its key and every
      item's back-reference set to it. */
  function Bind(k: string, d: Device): Device
  {
    d.(id := k,
       adcs := seq(|d.adcs|, i requires 0 <= i < |d.adcs| => d.adcs[i].(owner := Some(k))),
       tmpts := seq(|d.tmpts|, i requires 0 <= i < |d.tmpts| => d.tmpts[i].(owner := Some(k))),
       swts := seq(|d.swts|, i requires 0 <= i < |d.swts| => d.swts[i].(owner := Some(k))))
  }

  /** The device's id is `k` and every item it lists refers back to it. */
  predicate OwnedBy(d: Device, k: string)
  {
    && d.id == k
    && (forall i :: 0 <= i < |d.adcs| ==> d.adcs[i].owner == Some(k))
    && (forall i :: 0 <= i < |d.tmpts| ==> d.tmpts[i].owner == Some(k))
    && (forall i :: 0 <= i < |d.swts| ==> d.swts[i].owner == Some(k))
  }

  /** The device with its identity fields erased: what the TOML text decides. */
  function Detached(d: Device): Device
  {
    d.(id := "",
       adcs := seq(|d.adcs|, i requires 0 <= i < |d.adcs| => d.adcs[i].(owner := None)),
       tmpts := seq(|d.tmpts|, i requires 0 <= i < |d.tmpts| => d.tmpts[i].(owner := None)),
       swts := seq(|d.swts|, i requires 0 <= i < |d.swts| => d.swts[i].(owner := None)))
  }

  /** Binding sets the identity fields and nothing else. */
  lemma BindSetsOnlyIdentity(k: string, d: Device)
    ensures OwnedBy(Bind(k, d), k)
    ensures Detached(Bind(k, d)) == Detached(d)
  {
  }

  /** `loadConfig` after decoding. Go ranges over the map in an unspecified
      order, which the `:|` choice mirrors; the first violation met is fatal. */
  method LoadConfig(decoded: map<string, Device>) returns (r: Result<map<string, Device>, Fatal>)
    ensures r.Success? <==> ConfigValid(decoded)
    ensures r.Success? ==> r.value.Keys == decoded.Keys
    ensures r.Success? ==> forall k :: k in r.value ==> OwnedBy(r.value[k], k) && Detached(r.value[k]) == Detached(decoded[k])
    ensures r.Failure? ==> r.error.dev in decoded && Lacks(decoded[r.error.dev], r.error.missing)
  {
    var todo := decoded.Keys;
    var config: map<string, Device> := map[];
    while todo != {}
      invariant todo <= decoded.Keys
      invariant config.Keys == decoded.Keys - todo
      invariant forall k :: k in config ==> DeviceValid(decoded[k])
      invariant forall k :: k in config ==> OwnedBy(config[k], k) && Detached(config[k]) == Detached(decoded[k])
      decreases todo
    {
      var k :| k in todo;
      var d := decoded[k];
      var check := CheckDevice(d);
      if check.Some? {
        return Failure(Fatal(k, check.value));
      }
      BindSetsOnlyIdentity(k, d);
      config := config[k := Bind(k, d)];
      todo := todo - {k};
    }
    return Success(config);
  }

  /** Item ids are never compared: two switches with one id pass validation. */
  lemma DuplicateIdsAccepted()
    ensures exists d :: DeviceValid(d) && |d.swts| == 2 && d.swts[0].id == d.swts[1].id
  {
    var s := Swt("relay", "g", "s", "c", None, 0);
    var d := Device("", "/dev/rfcomm0", 9600, [], [], [s, s], Closed);
    assert DeviceValid(d);
  }

  /** `Expr` and `Vref` are never checked: any values pass validation. */
  lemma ExprAndVrefUnchecked(d: Device, i: nat, e: string, v: real)
    requires i < |d.adcs|
    ensures DeviceValid(d) <==> DeviceValid(d.(adcs := d.adcs[i := d.adcs[i].(expr := e, vref := v)]))
  {
    var d' := d.(adcs := d.adcs[i := d.adcs[i].(expr := e, vref := v)]);
    assert forall j :: 0 <= j < |d.adcs| ==> (AdcValid(d.adcs[j]) <==> AdcValid(d'.adcs[j]));
  }
}
