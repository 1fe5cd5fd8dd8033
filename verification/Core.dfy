/** The value types shared by the detection engine, the log records and the Travel Watch. */
module Core {
  const CATEGORY_COUNT: nat := 19
  const AIRTAG: nat := 5
  const TILE: nat := 6
  const SAMSUNG_TAG: nat := 7
  const GOOGLE_TAG: nat := 8

  datatype Option<+T> = None | Some(value: T) {
    function GetOr(default: T): T {
      if Some? then value else default
    }
  }

  datatype Radio = Wifi | Ble

  datatype SamsungState = Unavailable | Unknown | RecentlySeparated | Offline | LongOffline | Connected

  datatype SamsungTag = SamsungTag(id: seq<nat>, state: SamsungState) {
    predicate Valid() {
      state != Unavailable
    }
  }

  /** A signature rule; its matcher value is not needed once it is known to have matched. */
  datatype Rule = Rule(id: string, category: nat, kind: nat, score: nat, cap: nat, generic: bool,
                       title: string, reason: string)

  /** One cached or reported identity. The rule array and its count are one sequence here. */
  datatype Detection = Detection(
    firstMs: nat, lastMs: nat, unixSeconds: nat, rssiSum: int, rules: seq<Rule>, seenCount: nat,
    samsung: SamsungTag, address: seq<nat>, category: nat, radio: Radio, addressType: nat,
    channel: nat, score: nat, rssiMin: int, rssiMax: int, meal: bool, demo: bool)
  {
    predicate SamsungIdentity() {
      category == SAMSUNG_TAG && radio == Ble && samsung.Valid()
    }

    predicate SamsungConnected() {
      SamsungIdentity() && samsung.state == Connected
    }
  }

  /** A radio address: six bytes. */
  predicate Octets(address: seq<nat>) {
    |address| == 6 && forall i | 0 <= i < |address| :: address[i] < 256
  }

  function Repeat<T>(x: T, n: nat): (s: seq<T>)
    ensures |s| == n && forall i | 0 <= i < n :: s[i] == x
  {
    seq(n, _ => x)
  }

  function Min(a: int, b: int): int {
    if a < b then a else b
  }

  function Max(a: int, b: int): int {
    if a < b then b else a
  }
}
