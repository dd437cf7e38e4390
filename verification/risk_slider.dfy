/** The description under the risk-tolerance slider
    (`src/components/RiskToleranceSlider.tsx`): the entry of the five-entry
    table whose key is nearest the slider value. */
module RiskSlider {

  /** The table's keys, ascending, as `Object.keys(...).map(Number).sort()`
      lists them. */
  const Keys: seq<int> := [0, 25, 50, 75, 100]

  /** The five labels of the table. */
  datatype Level = Conservative | Moderate | Balanced | Aggressive | RiskOn {
    /** The label as shown. */
    function Name(): string {
      match this
      case Conservative => "Conservative"
      case Moderate => "Moderate"
      case Balanced => "Balanced"
      case Aggressive => "Aggressive"
      case RiskOn => "Risk-On"
    }
  }

  /** An entry of the table: its label and its text. */
  datatype RiskDescription = RiskDescription(level: Level, description: string)

  /** The table entry of a key. */
  function Entry(key: int): RiskDescription
    requires key in Keys
  {
    if key == 0 then
      RiskDescription(Conservative, "Prioritize capital preservation with minimal volatility. Suitable for short-term goals.")
    else if key == 25 then
      RiskDescription(Moderate, "Balance growth and stability. Suitable for medium-term horizons.")
    else if key == 50 then
      RiskDescription(Balanced, "Equal mix of growth and security. Suitable for long-term investors.")
    else if key == 75 then
      RiskDescription(Aggressive, "Accept higher volatility for growth potential. Suitable for experienced investors.")
    else
      RiskDescription(RiskOn, "Maximum growth orientation with significant volatility. Requires strong conviction.")
  }

  /** `Math.abs(key - value)`. */
  function Dist(key: int, value: real): real {
    if key as real >= value then key as real - value else value - key as real
  }

  predicate Ascending(keys: seq<int>) {
    forall i, j :: 0 <= i < j < |keys| ==> keys[i] < keys[j]
  }

  /** The loop of `getDescription` from the current candidate on: a key
      replaces the candidate only when strictly nearer. */
  function Scan(keys: seq<int>, value: real, closest: int): (r: int)
    ensures r == closest || r in keys
  {
    if keys == [] then closest
    else
      var next := if Dist(keys[0], value) < Dist(closest, value) then keys[0] else closest;
      assert forall k :: k in keys[1..] ==> k in keys;
      Scan(keys[1..], value, next)
  }

  /** The scan ends on the nearest of the candidate and the keys, and among
      equally near ones on the smallest, provided the keys ascend from the
      candidate. */
  lemma {:induction false} ScanNearest(keys: seq<int>, value: real, closest: int)
    ensures Dist(Scan(keys, value, closest), value) <= Dist(closest, value)
    ensures forall k :: k in keys ==> Dist(Scan(keys, value, closest), value) <= Dist(k, value)
    ensures Ascending(keys) && (forall k :: k in keys ==> closest <= k) ==>
      forall k :: (k in keys || k == closest) && Dist(k, value) == Dist(Scan(keys, value, closest), value) ==>
        Scan(keys, value, closest) <= k
  {
    if keys != [] {
      var next := if Dist(keys[0], value) < Dist(closest, value) then keys[0] else closest;
      var rest := keys[1..];
      var r := Scan(rest, value, next);
      assert Scan(keys, value, closest) == r;
      ScanNearest(rest, value, next);
      assert forall k :: k in keys ==> k == keys[0] || k in rest;
      if Ascending(keys) && (forall k :: k in keys ==> closest <= k) {
        assert Ascending(rest);
        assert forall k :: k in rest ==> next <= k by {
          forall k | k in rest ensures next <= k {
            var j :| 0 <= j < |rest| && rest[j] == k;
            assert keys[0] < keys[j + 1];
            assert keys[0] in keys;
          }
        }
      }
    }
  }

  /** The key `getDescription` settles on. */
  function ClosestKey(value: real): (r: int)
    ensures r in Keys
  {
    Scan(Keys, value, Keys[0])
  }

  /** The key is a nearest one, and the smallest of the nearest ones. */
  lemma ClosestKeyNearest(value: real)
    ensures forall k :: k in Keys ==> Dist(ClosestKey(value), value) <= Dist(k, value)
    ensures forall k :: k in Keys && Dist(k, value) == Dist(ClosestKey(value), value) ==> ClosestKey(value) <= k
  {
    ScanNearest(Keys, value, Keys[0]);
    assert Ascending(Keys);
  }

  /** `getDescription`: the entry of the nearest key. */
  function GetDescription(value: real): (r: RiskDescription)
    ensures exists k :: k in Keys && r == Entry(k)
  {
    Entry(ClosestKey(value))
  }

  // ----- lemmas -----

  /** The nearest key over all real values: ties at the midpoints go to the
      smaller key, values below 0 or above 100 clamp. */
  lemma ClosestKeyBands(value: real)
    ensures ClosestKey(value) == NearestKeyOf(value)
  {
    ClosestKeyNearest(value);
    assert 0 in Keys && 25 in Keys && 50 in Keys && 75 in Keys && 100 in Keys;
  }

  /** The label bands over the slider's integer range 0..100: 0-12,
      13-37, 38-62, 63-87, 88-100. */
  function BandLevel(v: int): Level {
    if v <= 12 then Conservative
    else if v <= 37 then Moderate
    else if v <= 62 then Balanced
    else if v <= 87 then Aggressive
    else RiskOn
  }

  /** The key nearest a real value, ties to the smaller. */
  function NearestKeyOf(value: real): int {
    if value <= 12.5 then 0
    else if value <= 37.5 then 25
    else if value <= 62.5 then 50
    else if value <= 87.5 then 75
    else 100
  }

  /** On the integers the nearest keys give the label bands. */
  lemma BandsOfIntegers(v: int)
    ensures NearestKeyOf(v as real) in Keys && Entry(NearestKeyOf(v as real)).level == BandLevel(v)
  {
    var x := v as real;
    if v <= 12 {
      assert x <= 12.5;
    } else if v <= 37 {
      assert 12.5 < x <= 37.5;
    } else if v <= 62 {
      assert 37.5 < x <= 62.5;
    } else if v <= 87 {
      assert 62.5 < x <= 87.5;
    } else {
      assert 87.5 < x;
    }
  }

  /** Each slider position shows the label of its band (below 0 and above
      100 the outer bands continue). */
  lemma LabelBands(v: int)
    ensures GetDescription(v as real).level == BandLevel(v)
  {
    var x := v as real;
    ClosestKeyBands(x);
    BandsOfIntegers(v);
  }

  /** A key itself shows its own entry. */
  lemma KeysShowTheirEntry(k: int)
    requires k in Keys
    ensures GetDescription(k as real) == Entry(k)
  {
    ClosestKeyNearest(k as real);
    var c := ClosestKey(k as real);
    assert Dist(k, k as real) == 0.0;
    assert c == k;
  }
}
