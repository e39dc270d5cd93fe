/** One capture: the regions the detector found are classified in order,
    mapped through the label table, deduplicated by label and priced against
    the menu. The outcome is kept, as in the kiosk code, as two separate
    lists: the accepted labels and the prices that were found for them. */
module Pipeline {
  import opened Options
  import opened Seqs
  import opened Labels
  import opened Menu

  /** What cropping and classifying one detected region yields: either the
      step raised (a degenerate box, a failed resize or prediction), or the
      classifier's arg-max class index. */
  datatype Outcome = Raised | Index(index: int)

  /** The accepted labels and, in a separate list, the prices found for
      them. An unpriced label has no element in `prices`. */
  datatype Bill = Bill(items: seq<string>, prices: seq<int>) {

    /** The billed amount: the sum of every price found. */
    function Amount(): int {
      Sum(prices)
    }
  }

  /** The label a region contributes, if any. */
  function LabelOfOutcome(o: Outcome): Option<string> {
    match o
    case Raised => None
    case Index(i) => LabelOf(i)
  }

  /** Labels of the regions that classified to a known index, in detector
      order, repeats kept. */
  function Recognised(os: seq<Outcome>): (r: seq<string>)
    ensures |r| <= |os|
  {
    if |os| == 0 then [] else Recognised(os[..|os| - 1]) + LabelList(os[|os| - 1])
  }

  /** The label an outcome contributes, as a list of zero or one element. */
  function LabelList(o: Outcome): (r: seq<string>)
    ensures |r| <= 1
  {
    match LabelOfOutcome(o)
    case None => []
    case Some(l) => [l]
  }

  /** The price list one label adds: one element when the scan finds a
      price, none otherwise. */
  function PriceList(menu: seq<Entry>, dish: string): seq<int> {
    match PriceOf(menu, dish)
    case None => []
    case Some(p) => [p]
  }

  /** The prices found for `items`, in item order; unpriced items contribute
      nothing, so the list is as long as `items` exactly when every item is
      priced. */
  function PricesOf(menu: seq<Entry>, items: seq<string>): (r: seq<int>)
    ensures |r| <= |items|
  {
    if |items| == 0 then []
    else PricesOf(menu, items[..|items| - 1]) + PriceList(menu, items[|items| - 1])
  }

  /** The price list is as long as the item list exactly when every item
      is priced. */
  lemma {:induction false} PricesOfFull(menu: seq<Entry>, items: seq<string>)
    ensures |PricesOf(menu, items)| == |items| <==>
              forall i :: 0 <= i < |items| ==> PriceOf(menu, items[i]).Some?
    decreases |items|
  {
    if |items| > 0 {
      var front := items[..|items| - 1];
      PricesOfFull(menu, front);
      assert forall i :: 0 <= i < |front| ==> front[i] == items[i];
    }
  }

  lemma {:induction false} PricesOfConcat(menu: seq<Entry>, a: seq<string>, b: seq<string>)
    ensures PricesOf(menu, a + b) == PricesOf(menu, a) + PricesOf(menu, b)
    decreases |b|
  {
    if |b| == 0 {
      assert a + b == a;
    } else {
      var b', x := b[..|b| - 1], b[|b| - 1];
      var pa, pb, px := PricesOf(menu, a), PricesOf(menu, b'), PriceList(menu, x);
      calc {
        PricesOf(menu, a + b);
        { assert a + b == (a + b') + [x]; PricesOfSnoc(menu, a + b', x); }
        PricesOf(menu, a + b') + px;
        { PricesOfConcat(menu, a, b'); }
        (pa + pb) + px;
        { assert (pa + pb) + px == pa + (pb + px); }
        pa + (pb + px);
        { assert b == b' + [x]; PricesOfSnoc(menu, b', x); }
        pa + PricesOf(menu, b);
      }
    }
  }

  /** Unfolding the price list by its last item. */
  lemma PricesOfSnoc(menu: seq<Entry>, items: seq<string>, x: string)
    ensures PricesOf(menu, items + [x]) == PricesOf(menu, items) + PriceList(menu, x)
  {
    assert (items + [x])[..|items|] == items;
  }

  /** One iteration of the region loop: a label already listed, an unmapped
      index and a raised step all leave both lists alone; a new label is
      listed and its price, if the scan finds one, appended. */
  function Accept(menu: seq<Entry>, b: Bill, o: Outcome): Bill {
    match LabelOfOutcome(o)
    case None => b
    case Some(l) =>
      if l in b.items then b
      else Bill(b.items + [l], b.prices + PriceList(menu, l))
  }

  /** The region loop over the detector's regions `os`, in detector order. */
  function Process(menu: seq<Entry>, os: seq<Outcome>): Bill {
    if |os| == 0 then Bill([], [])
    else Accept(menu, Process(menu, os[..|os| - 1]), os[|os| - 1])
  }

  /** What the region loop keeps true: the listed labels are distinct, they
      are exactly the recognised labels, and the price list is the prices
      found for the listed labels, in order. */
  lemma {:induction false} ProcessInvariant(menu: seq<Entry>, os: seq<Outcome>)
    ensures NoDup(Process(menu, os).items)
    ensures forall l :: l in Process(menu, os).items <==> l in Recognised(os)
    ensures Process(menu, os).prices == PricesOf(menu, Process(menu, os).items)
  {
    ProcessListsRecognised(menu, os);
    ProcessPricesItems(menu, os);
  }

  /** The listed labels are distinct and are exactly the recognised ones. */
  lemma {:induction false} ProcessListsRecognised(menu: seq<Entry>, os: seq<Outcome>)
    ensures NoDup(Process(menu, os).items)
    ensures forall l :: l in Process(menu, os).items <==> l in Recognised(os)
    decreases |os|
  {
    if |os| > 0 {
      var front, o := os[..|os| - 1], os[|os| - 1];
      assert os == front + [o];
      ProcessListsRecognised(menu, front);
      ProcessSnoc(menu, front, o);
      RecognisedSnoc(front, o);
    }
  }

  /** The price list is the prices found for the listed labels. */
  lemma {:induction false} ProcessPricesItems(menu: seq<Entry>, os: seq<Outcome>)
    ensures Process(menu, os).prices == PricesOf(menu, Process(menu, os).items)
    decreases |os|
  {
    if |os| > 0 {
      var front, o := os[..|os| - 1], os[|os| - 1];
      assert os == front + [o];
      ProcessPricesItems(menu, front);
      ProcessSnoc(menu, front, o);
      var b := Process(menu, front);
      match LabelOfOutcome(o)
      case None =>
      case Some(l) =>
        if l !in b.items {
          PricesOfSnoc(menu, b.items, l);
        }
    }
  }

  /** Unfolding the region loop by its last region. */
  lemma ProcessSnoc(menu: seq<Entry>, os: seq<Outcome>, o: Outcome)
    ensures Process(menu, os + [o]) == Accept(menu, Process(menu, os), o)
  {
    assert (os + [o])[..|os|] == os;
  }

  lemma RecognisedSnoc(os: seq<Outcome>, o: Outcome)
    ensures Recognised(os + [o]) == Recognised(os) + LabelList(o)
  {
    assert (os + [o])[..|os|] == os;
  }

  /** Reference description of the listed labels: every one is recognised,
      every recognised label is listed, and they come in the order in which
      each label first appears among the recognised ones. */
  ghost predicate IsFirstOccurrences(items: seq<string>, labels: seq<string>) {
    && (forall i :: 0 <= i < |items| ==> items[i] in labels)
    && (forall l :: l in labels ==> l in items)
    && OrderedIn(items, labels)
  }

  /** Extending the recognised labels by one keeps the first-occurrence
      description, provided a new label is also appended to the list. */
  lemma FirstOccurrencesSnoc(items: seq<string>, labels: seq<string>, l: string)
    requires IsFirstOccurrences(items, labels)
    ensures l in items ==> IsFirstOccurrences(items, labels + [l])
    ensures l !in items ==> IsFirstOccurrences(items + [l], labels + [l])
  {
    FirstIndexesKept(labels, l);
    if l !in items {
      FirstOccurrencesNew(items, labels, l);
    }
  }

  /** Appending to the recognised labels moves no first position. */
  lemma FirstIndexesKept(labels: seq<string>, l: string)
    ensures forall x :: x in labels ==> FirstIndex(labels + [l], x) == FirstIndex(labels, x)
  {
    forall x | x in labels
      ensures FirstIndex(labels + [l], x) == FirstIndex(labels, x)
    {
      FirstIndexExtend(labels, [l], x);
    }
  }

  /** A label seen for the first time goes last in first-position order. */
  lemma FirstOccurrencesNew(items: seq<string>, labels: seq<string>, l: string)
    requires IsFirstOccurrences(items, labels) && l !in items
    requires forall x :: x in labels ==> FirstIndex(labels + [l], x) == FirstIndex(labels, x)
    ensures IsFirstOccurrences(items + [l], labels + [l])
  {
    var labels', items' := labels + [l], items + [l];
    assert l !in labels;
    FirstIndexUnique(labels', l, |labels|);
    forall i, j | 0 <= i < j < |items'|
      ensures FirstIndex(labels', items'[i]) < FirstIndex(labels', items'[j])
    {
      if j < |items| {
        assert items'[i] == items[i] && items'[j] == items[j];
      } else {
        assert items'[i] in labels;
      }
    }
  }

  /** The region loop lists each recognised label once, at the position of
      its first successful classification. */
  lemma {:induction false} ProcessIsFirstOccurrences(menu: seq<Entry>, os: seq<Outcome>)
    ensures IsFirstOccurrences(Process(menu, os).items, Recognised(os))
    decreases |os|
  {
    if |os| > 0 {
      var front := os[..|os| - 1];
      var o := os[|os| - 1];
      assert os == front + [o];
      ProcessIsFirstOccurrences(menu, front);
      ProcessSnoc(menu, front, o);
      RecognisedSnoc(front, o);
      var b := Process(menu, front);
      match LabelOfOutcome(o)
      case None =>
        assert Process(menu, os) == b;
        assert Recognised(os) == Recognised(front);
      case Some(l) =>
        assert Recognised(os) == Recognised(front) + [l];
        FirstOccurrencesSnoc(b.items, Recognised(front), l);
    }
  }

  /** Strict order by first position in `labels`. */
  ghost predicate OrderedIn(a: seq<string>, labels: seq<string>)
    requires forall i :: 0 <= i < |a| ==> a[i] in labels
  {
    forall i, j :: 0 <= i < j < |a| ==> FirstIndex(labels, a[i]) < FirstIndex(labels, a[j])
  }

  /** Two sequences listing the same elements, each strictly ordered by
      first position in `labels`, are equal. */
  lemma {:induction false} OrderedByFirstIndexUnique(a: seq<string>, b: seq<string>, labels: seq<string>)
    requires forall i :: 0 <= i < |a| ==> a[i] in labels
    requires forall i :: 0 <= i < |b| ==> b[i] in labels
    requires forall x :: x in a <==> x in b
    requires OrderedIn(a, labels) && OrderedIn(b, labels)
    ensures a == b
    decreases |a|
  {
    if |a| > 0 {
      SameHeadSameTails(a, b, labels);
      OrderedByFirstIndexUnique(a[1..], b[1..], labels);
      assert a == [a[0]] + a[1..];
      assert b == [b[0]] + b[1..];
    } else {
      assert forall x :: x !in b;
      assert forall x :: x in multiset(b) <==> x in b;
      assert multiset(b) == multiset{};
    }
  }

  /** Two such non-empty sequences start alike, and their tails again list
      the same elements in first-position order. */
  lemma SameHeadSameTails(a: seq<string>, b: seq<string>, labels: seq<string>)
    requires |a| > 0
    requires forall i :: 0 <= i < |a| ==> a[i] in labels
    requires forall i :: 0 <= i < |b| ==> b[i] in labels
    requires forall x :: x in a <==> x in b
    requires OrderedIn(a, labels) && OrderedIn(b, labels)
    ensures |b| > 0 && a[0] == b[0]
    ensures forall i :: 0 <= i < |a[1..]| ==> a[1..][i] in labels
    ensures forall i :: 0 <= i < |b[1..]| ==> b[1..][i] in labels
    ensures forall x :: x in a[1..] <==> x in b[1..]
    ensures OrderedIn(a[1..], labels) && OrderedIn(b[1..], labels)
  {
    assert a[0] in b;
    assert b[0] in a;
    HeadsAgree(a, b, labels);
    TailKeeps(a, b, labels);
    TailKeeps(b, a, labels);
  }

  /** The element placed first in both orders is the same. */
  lemma HeadsAgree(a: seq<string>, b: seq<string>, labels: seq<string>)
    requires |a| > 0 && |b| > 0 && a[0] in b && b[0] in a
    requires forall i :: 0 <= i < |a| ==> a[i] in labels
    requires forall i :: 0 <= i < |b| ==> b[i] in labels
    requires OrderedIn(a, labels) && OrderedIn(b, labels)
    ensures a[0] == b[0]
  {
    var k :| 0 <= k < |b| && b[k] == a[0];
    var m :| 0 <= m < |a| && a[m] == b[0];
    var fa, fb := FirstIndex(labels, a[0]), FirstIndex(labels, b[0]);
    assert m == 0 || fa < fb;
    assert k == 0 || fb < fa;
  }

  /** With equal heads, what follows the head of `a` follows the head of
      `b` as well. */
  lemma TailKeeps(a: seq<string>, b: seq<string>, labels: seq<string>)
    requires |a| > 0 && |b| > 0 && a[0] == b[0]
    requires forall i :: 0 <= i < |a| ==> a[i] in labels
    requires forall x :: x in a ==> x in b
    requires OrderedIn(a, labels)
    ensures forall x :: x in a[1..] ==> x in b[1..]
  {
    forall x | x in a[1..]
      ensures x in b[1..]
    {
      var i :| 1 <= i < |a| && a[i] == x;
      assert FirstIndex(labels, a[0]) < FirstIndex(labels, a[i]);
      assert x in b;
      var j :| 0 <= j < |b| && b[j] == x;
      assert b[1..][j - 1] == x;
    }
  }

  /** The first-occurrence description determines the listed labels: any
      list meeting it is the one the region loop builds. */
  lemma ProcessItemsAreTheFirstOccurrences(menu: seq<Entry>, os: seq<Outcome>, items: seq<string>)
    requires IsFirstOccurrences(items, Recognised(os))
    ensures items == Process(menu, os).items
  {
    var labels := Recognised(os);
    var p := Process(menu, os).items;
    ProcessIsFirstOccurrences(menu, os);
    OrderedByFirstIndexUnique(items, p, labels);
  }

  /** A region whose iteration changes nothing (below: a raised step, an
      unmapped index, a label already listed) can be deleted from the
      detector's output without changing the bill; in particular it does not
      stop later regions being processed. */
  lemma {:induction false} ProcessSkip(menu: seq<Entry>, a: seq<Outcome>, n: Outcome, b: seq<Outcome>)
    requires Accept(menu, Process(menu, a), n) == Process(menu, a)
    ensures Process(menu, a + [n] + b) == Process(menu, a + b)
    decreases |b|
  {
    if |b| == 0 {
      assert a + [n] + b == a + [n];
      assert a + b == a;
      ProcessSnoc(menu, a, n);
    } else {
      var b' := b[..|b| - 1];
      var x := b[|b| - 1];
      ProcessSkip(menu, a, n, b');
      assert a + [n] + b == (a + [n] + b') + [x];
      assert a + b == (a + b') + [x];
      ProcessSnoc(menu, a + [n] + b', x);
      ProcessSnoc(menu, a + b', x);
    }
  }

  /** A region whose crop or classification raised, or whose index is not in
      the label table, adds nothing and does not stop later regions. */
  lemma SkipsUnrecognisedRegion(menu: seq<Entry>, a: seq<Outcome>, n: Outcome, b: seq<Outcome>)
    requires n.Raised? || !(0 <= n.index < ClassCount)
    ensures Process(menu, a + [n] + b) == Process(menu, a + b)
  {
    ProcessSkip(menu, a, n, b);
  }

  /** A region classified as a label some earlier region already produced
      is not listed or billed again. */
  lemma SkipsRepeatedLabel(menu: seq<Entry>, a: seq<Outcome>, n: Outcome, b: seq<Outcome>)
    requires LabelOfOutcome(n).Some? && LabelOfOutcome(n).value in Recognised(a)
    ensures Process(menu, a + [n] + b) == Process(menu, a + b)
  {
    ProcessInvariant(menu, a);
    ProcessSkip(menu, a, n, b);
  }

  /** The amount counts every priced item, not only those that fit in the
      ledger's six label slots: splitting the items anywhere splits the
      amount into the two parts' sums. */
  lemma AmountCountsEveryItem(menu: seq<Entry>, items: seq<string>, k: nat)
    requires k <= |items|
    ensures Sum(PricesOf(menu, items)) ==
              Sum(PricesOf(menu, items[..k])) + Sum(PricesOf(menu, items[k..]))
  {
    assert items == items[..k] + items[k..];
    PricesOfConcat(menu, items[..k], items[k..]);
    SumConcat(PricesOf(menu, items[..k]), PricesOf(menu, items[k..]));
  }

  /** Two regions classified as the same dish and one as another: the
      repeat is dropped and the amount is the two dishes' prices. */
  lemma ScenarioDuplicateDish(menu: seq<Entry>)
    requires PriceOf(menu, "CANHCHUA") == Some(15000) && PriceOf(menu, "COM") == Some(5000)
    ensures Process(menu, [Index(2), Index(2), Index(3)]) == Bill(["CANHCHUA", "COM"], [15000, 5000])
    ensures Process(menu, [Index(2), Index(2), Index(3)]).Amount() == 20000
  {
    var b1 := Bill(["CANHCHUA"], [15000]);
    ProcessStep(menu, [], Index(2), Bill([], []), b1);
    assert [] + [Index(2)] == [Index(2)];
    ProcessStep(menu, [Index(2)], Index(2), b1, b1);
    assert [Index(2)] + [Index(2)] == [Index(2), Index(2)];
    RepeatedThenNew(menu);
    assert [Index(2), Index(2)] + [Index(3)] == [Index(2), Index(2), Index(3)];
    SumOfTwo(15000, 5000);
  }

  lemma SumOfTwo(x: int, y: int)
    ensures Sum([x, y]) == x + y
  {
    assert Sum([x]) == x by { assert [x][..0] == []; }
    assert Sum([x, y]) == Sum([x]) + y by { assert [x, y][..1] == [x]; }
  }

  /** One known step of the region loop. */
  lemma ProcessStep(menu: seq<Entry>, os: seq<Outcome>, o: Outcome, b: Bill, b': Bill)
    requires Process(menu, os) == b && Accept(menu, b, o) == b'
    ensures Process(menu, os + [o]) == b'
  {
    ProcessSnoc(menu, os, o);
  }

  lemma RepeatedThenNew(menu: seq<Entry>)
    requires PriceOf(menu, "COM") == Some(5000)
    ensures Accept(menu, Bill(["CANHCHUA"], [15000]), Index(3)) == Bill(["CANHCHUA", "COM"], [15000, 5000])
  {
    assert "COM" != "CANHCHUA" by { assert |"COM"| != |"CANHCHUA"|; }
  }

  /** A dish the menu does not price is still listed but adds no price. */
  lemma ScenarioUnpricedDish(menu: seq<Entry>)
    requires PriceOf(menu, "GACHIEN").None? && PriceOf(menu, "COM") == Some(5000)
    ensures Process(menu, [Index(5), Index(3)]) == Bill(["GACHIEN", "COM"], [5000])
    ensures Process(menu, [Index(5), Index(3)]).Amount() == 5000
  {
    var b1 := Bill(["GACHIEN"], []);
    assert Accept(menu, Bill([], []), Index(5)) == b1 by {
      assert PriceList(menu, "GACHIEN") == [];
    }
    ProcessStep(menu, [], Index(5), Bill([], []), b1);
    assert [] + [Index(5)] == [Index(5)];
    UnpricedThenNew(menu);
    ProcessStep(menu, [Index(5)], Index(3), b1, Bill(["GACHIEN", "COM"], [5000]));
    assert [Index(5)] + [Index(3)] == [Index(5), Index(3)];
    assert Sum([5000]) == 5000 by { assert [5000][..0] == []; }
  }

  lemma UnpricedThenNew(menu: seq<Entry>)
    requires PriceOf(menu, "COM") == Some(5000)
    ensures Accept(menu, Bill(["GACHIEN"], []), Index(3)) == Bill(["GACHIEN", "COM"], [5000])
  {
    assert "COM" != "GACHIEN" by { assert |"COM"| != |"GACHIEN"|; }
  }

  /** A menu whose names need canonicalising: "CanhChua" prices CANHCHUA
      and "com" prices COM, while GACHIEN is not listed. */
  lemma ScenarioMenuPrices()
    ensures var menu := [Entry(Some("CanhChua"), Some(15000)), Entry(Some("com"), Some(5000))];
            && PriceOf(menu, "CANHCHUA") == Some(15000)
            && PriceOf(menu, "COM") == Some(5000)
            && PriceOf(menu, "GACHIEN").None?
  {
    var e0, e1 := Entry(Some("CanhChua"), Some(15000)), Entry(Some("com"), Some(5000));
    var menu := [e0, e1];
    CanonicalExamples();
    assert menu[1..] == [e1] && [e1][1..] == [];
    assert Names(e0, "CANHCHUA") && Names(e1, "COM");
    assert |"CANHCHUA"| != |"COM"| && |"CANHCHUA"| != |"GACHIEN"| && |"COM"| != |"GACHIEN"|;
  }

  /** Mixed-case menu names reach the label form. */
  lemma CanonicalExamples()
    ensures Canonical("CanhChua") == "CANHCHUA"
    ensures Canonical("com") == "COM"
  {
    CanonicalByChars("CanhChua", "CANHCHUA");
    CanonicalByChars("com", "COM");
  }

  /** As written, the result display pairs `items` and `prices` by position
      and stops at the shorter list. */
  function ZipLines(items: seq<string>, prices: seq<int>): (r: seq<(string, int)>)
    ensures |r| <= |items| && |r| <= |prices|
    ensures |r| == |items| || |r| == |prices|
    ensures forall i :: 0 <= i < |r| ==> r[i] == (items[i], prices[i])
  {
    if |items| == 0 || |prices| == 0 then []
    else [(items[0], prices[0])] + ZipLines(items[1..], prices[1..])
  }

  /** With an unpriced dish listed before a priced one, the positional zip
      shows the later dish's price next to the unpriced dish and drops the
      later dish from the display. */
  lemma ZipMisattributesPrice(menu: seq<Entry>)
    requires PriceOf(menu, "GACHIEN").None? && PriceOf(menu, "COM") == Some(5000)
    ensures var b := Process(menu, [Index(5), Index(3)]);
            ZipLines(b.items, b.prices) == [("GACHIEN", 5000)]
  {
    ScenarioUnpricedDish(menu);
    assert ZipLines(["COM"], []) == [];
  }

  /** Corrected display: each listed dish next to its own price, or next to
      nothing when the menu has none. */
  function ItemLines(menu: seq<Entry>, items: seq<string>): (r: seq<(string, Option<int>)>)
    ensures |r| == |items|
    ensures forall i :: 0 <= i < |items| ==> r[i] == (items[i], PriceOf(menu, items[i]))
  {
    if |items| == 0 then []
    else [(items[0], PriceOf(menu, items[0]))] + ItemLines(menu, items[1..])
  }

  /** The prices shown on the lines, in order, skipping unpriced lines. */
  function ShownPrices(lines: seq<(string, Option<int>)>): seq<int> {
    if |lines| == 0 then []
    else
      ShownPrices(lines[..|lines| - 1])
      + match lines[|lines| - 1].1
        case None => []
        case Some(p) => [p]
  }

  /** The corrected display shows exactly the bill's price list, so its
      prices add up to the billed amount. */
  lemma {:induction false} ItemLinesShowBillPrices(menu: seq<Entry>, items: seq<string>)
    ensures ShownPrices(ItemLines(menu, items)) == PricesOf(menu, items)
    decreases |items|
  {
    if |items| > 0 {
      var front, x := items[..|items| - 1], items[|items| - 1];
      ItemLinesShowBillPrices(menu, front);
      var lines := ItemLines(menu, items);
      ItemLinesFront(menu, items);
      assert lines[|lines| - 1] == (x, PriceOf(menu, x));
      calc {
        ShownPrices(lines);
        ShownPrices(ItemLines(menu, front)) + PriceList(menu, x);
        PricesOf(menu, front) + PriceList(menu, x);
      }
    }
  }

  /** Dropping the last item drops the last display line. */
  lemma ItemLinesFront(menu: seq<Entry>, items: seq<string>)
    requires |items| > 0
    ensures ItemLines(menu, items)[..|items| - 1] == ItemLines(menu, items[..|items| - 1])
  {
    var lines, front := ItemLines(menu, items), ItemLines(menu, items[..|items| - 1]);
    assert forall i :: 0 <= i < |items| - 1 ==> lines[i] == front[i];
  }

  /** When every listed dish is priced the positional zip is right: it
      agrees line by line with the corrected display. */
  lemma ZipRightWhenAllPriced(menu: seq<Entry>, os: seq<Outcome>)
    requires |Process(menu, os).prices| == |Process(menu, os).items|
    ensures var b := Process(menu, os);
            var zipped := ZipLines(b.items, b.prices);
            var lines := ItemLines(menu, b.items);
            |zipped| == |lines| &&
            forall i :: 0 <= i < |lines| ==> lines[i] == (zipped[i].0, Some(zipped[i].1))
  {
    var b := Process(menu, os);
    ProcessInvariant(menu, os);
    PricedListIsLookup(menu, b.items);
    var zipped := ZipLines(b.items, b.prices);
    var lines := ItemLines(menu, b.items);
    forall i | 0 <= i < |lines|
      ensures lines[i] == (zipped[i].0, Some(zipped[i].1))
    {
      assert zipped[i] == (b.items[i], b.prices[i]);
    }
  }

  /** When every item is priced, the price list holds each item's own
      price at the item's position. */
  lemma {:induction false} PricedListIsLookup(menu: seq<Entry>, items: seq<string>)
    requires |PricesOf(menu, items)| == |items|
    ensures forall i :: 0 <= i < |items| ==> PriceOf(menu, items[i]) == Some(PricesOf(menu, items)[i])
    decreases |items|
  {
    if |items| > 0 {
      var front := items[..|items| - 1];
      assert |PricesOf(menu, front)| == |front|;
      PricedListIsLookup(menu, front);
    }
  }
}
