/** The menu as loaded from its JSON document, and the price scan that the
    capture step runs for each newly accepted label. */
module Menu {
  import opened Options
  import opened Labels

  /** One entry of the menu's "MENU" list. `mon` is the dish name and `gia`
      its price; None stands for a field that is missing or unusable, which
      makes the scan raise when it reaches that field. */
  datatype Entry = Entry(mon: Option<string>, gia: Option<int>)

  /** The entry's name, once canonicalised, is `dish`. */
  predicate Names(e: Entry, dish: string) {
    e.mon.Some? && Canonical(e.mon.value) == dish
  }

  /** Entry `k` is where the scan for `dish` stops with a match: it names
      the label, and every earlier entry has a readable name that does not. */
  ghost predicate FirstMatch(menu: seq<Entry>, dish: string, k: int) {
    && 0 <= k < |menu|
    && Names(menu[k], dish)
    && forall j :: 0 <= j < k ==> menu[j].mon.Some? && !Names(menu[j], dish)
  }

  /** The price the capture step appends for `dish`: the scan walks the menu
      in order and takes the price of the first entry whose canonical name is
      the dish. None when no entry matches, and also when the scan raises
      first (an entry without a readable name before the match, or a matching
      entry without a price), because the per-region handler then swallows the
      error after the label was already listed. */
  function PriceOf(menu: seq<Entry>, dish: string): Option<int> {
    if |menu| == 0 then None
    else if menu[0].mon.None? then None
    else if Canonical(menu[0].mon.value) == dish then menu[0].gia
    else PriceOf(menu[1..], dish)
  }

  /** Both directions of the first-match rule: a price is found exactly when
      the first matching entry exists and carries a price, and it is that
      entry's price. */
  lemma {:induction false} PriceOfIsFirstMatch(menu: seq<Entry>, dish: string)
    ensures PriceOf(menu, dish).Some? <==>
              exists k :: FirstMatch(menu, dish, k) && menu[k].gia.Some?
    ensures forall k :: FirstMatch(menu, dish, k) ==> PriceOf(menu, dish) == menu[k].gia
    decreases |menu|
  {
    if |menu| == 0 {
    } else if menu[0].mon.None? {
      assert forall k :: !FirstMatch(menu, dish, k);
    } else if Canonical(menu[0].mon.value) == dish {
      assert FirstMatch(menu, dish, 0);
      assert forall k :: FirstMatch(menu, dish, k) ==> k == 0;
    } else {
      PriceOfIsFirstMatch(menu[1..], dish);
      forall k | FirstMatch(menu, dish, k)
        ensures k > 0 && FirstMatch(menu[1..], dish, k - 1)
      {
      }
      forall k | FirstMatch(menu[1..], dish, k)
        ensures FirstMatch(menu, dish, k + 1)
      {
      }
    }
  }

  /** A readable entry naming no accepted label never influences a price:
      removing it from the menu changes no lookup. */
  lemma {:induction false} PriceOfSkipsOtherNames(menu: seq<Entry>, i: nat, dish: string)
    requires i < |menu| && menu[i].mon.Some? && !Names(menu[i], dish)
    ensures PriceOf(menu[..i] + menu[i + 1..], dish) == PriceOf(menu, dish)
    decreases i
  {
    if i == 0 {
      assert menu[..i] + menu[i + 1..] == menu[1..];
    } else {
      var rest := menu[..i] + menu[i + 1..];
      assert rest[0] == menu[0];
      assert rest[1..] == menu[1..][..i - 1] + menu[1..][i..];
      PriceOfSkipsOtherNames(menu[1..], i - 1, dish);
    }
  }
}
