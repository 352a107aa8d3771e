/**
 The two claims of `tools/bench_scale.py`: synthetic copies of a population keep its duplicates,
 and an index built once finds the duplicates a scan of all the others finds.
 */
module Bench {
  import opened Text
  import opened Numerals
  import opened Invoices
  import opened OrderRules
  import opened BatchSafety

  // ----- copies

  /** What an order becomes in copy `c` of the population. */
  function CopiedOrder(order: Field, c: nat): Field {
    if c == 0 || order.None? || order.value == "" then order
    else Some(order.value + "-C" + Digits(c))
  }

  function CopyOf(original: Invoice, c: nat): Invoice {
    if c == 0 then original
    else original.(purchaseOrder := CopiedOrder(original.purchaseOrder, c),
                   name := "c" + Digits(c) + "-" + original.name)
  }

  /** Entry `i` of the copied population. */
  function Entry(base: seq<Invoice>, i: nat): Invoice
    requires base != []
  {
    CopyOf(base[i % |base|], i / |base|)
  }

  /** `copies(base, n)` */
  method Copies(base: seq<Invoice>, n: nat) returns (out: seq<Invoice>)
    requires n == 0 || base != []  // the source divides by len(base)
    ensures |out| == n
    ensures forall i :: 0 <= i < n ==> IsCopy(out[i], base[i % |base|], i / |base|)
    ensures base != [] ==> out == Population(base, n)
  {
    hide IsCopy;
    out := [];
    for i := 0 to n
      invariant |out| == i
      invariant forall j :: 0 <= j < i ==> out[j] == Entry(base, j)
    {
      var c, original := i / |base|, base[i % |base|];
      var order, name := original.purchaseOrder, original.name;
      if c != 0 {
        if order.Some? && order.value != "" {
          order := Some(order.value + "-C" + Digits(c));
        }
        name := "c" + Digits(c) + "-" + name;
      }
      var copy := original.(purchaseOrder := order, name := name);
      assert copy == Entry(base, i);
      out := out + [copy];
    }
    AllCopies(base, out);
  }

  lemma {:induction false} AllCopies(base: seq<Invoice>, out: seq<Invoice>)
    requires out == [] || base != []
    requires forall i :: 0 <= i < |out| ==> out[i] == Entry(base, i)
    ensures forall i :: 0 <= i < |out| ==> IsCopy(out[i], base[i % |base|], i / |base|)
  {
    forall i | 0 <= i < |out|
      ensures IsCopy(out[i], base[i % |base|], i / |base|)
    {
      CopyIs(base[i % |base|], i / |base|);
      hide CopyOf, IsCopy;
    }
  }

  /** A copy has the name and order the source gives it, and the rest of its original; the first one
      is the original itself. */
  predicate IsCopy(copy: Invoice, original: Invoice, c: nat) {
    && copy == original.(name := copy.name, purchaseOrder := copy.purchaseOrder)
    && (c == 0 ==> copy == original)
    && (c > 0 ==>
          && copy.name == "c" + Digits(c) + "-" + original.name
          && copy.purchaseOrder
             == if original.purchaseOrder == None || original.purchaseOrder == Some("")
                then original.purchaseOrder
                else Some(original.purchaseOrder.value + "-C" + Digits(c)))
  }

  lemma {:induction false} CopyIs(original: Invoice, c: nat)
    ensures IsCopy(CopyOf(original, c), original, c)
  {
  }

  /** Whether the duplicate rule fires on member `i` of a population. */
  predicate FiresAt(population: seq<Invoice>, i: nat) {
    i < |population| && R16(population[i], Others(population, i)).Fires?
  }

  lemma {:induction false} TwinFires(population: seq<Invoice>, i: nat, j: nat)
    requires i < |population| && j < |population| && i != j
    requires Key(population[i].purchaseOrder) == Key(population[j].purchaseOrder) != ""
    ensures FiresAt(population, i)
  {
    var others := Others(population, i);
    assert others[if j < i then j else j - 1] == population[j];
    assert population[j] in others;
  }

  lemma {:induction false} FiresHasTwin(population: seq<Invoice>, i: nat) returns (j: nat)
    requires FiresAt(population, i)
    ensures j < |population| && j != i
    ensures Key(population[i].purchaseOrder) == Key(population[j].purchaseOrder) != ""
  {
    hide Key;
    var others := Others(population, i);
    var other :| other in others && Key(other.purchaseOrder) == Key(population[i].purchaseOrder);
    var k :| 0 <= k < |others| && others[k] == other;
    j := if k < i then k else k + 1;
  }

  predicate HasOrder(invoice: Invoice) {
    invoice.purchaseOrder.Some? && invoice.purchaseOrder.value != ""
  }

  /** The suffix a copy's key ends in, its hyphen dropped. */
  function Suffix(c: nat): string {
    "C" + Digits(c)
  }

  lemma {:induction false} DigitsAreTheirOwnUpper(s: string)
    requires AllDigits(s)
    ensures Upper(s) == s
  {
    if s != "" {
      DigitsAreTheirOwnUpper(s[1..]);
    }
  }

  lemma {:induction false} SuffixWithout(d: string, drop: set<char>)
    requires AllDigits(d) && '-' in drop && 'C' !in drop
    requires forall c :: c in drop ==> !IsDigit(c)
    ensures Without(Upper("-C" + d), drop) == "C" + d
  {
    UpperConcat("-C", d);
    assert Upper("-C") == "-C" by {
      assert "-C"[1..] == "C" && "C"[1..] == "";
    }
    DigitsAreTheirOwnUpper(d);
    WithoutConcat("-C", d, drop);
    DashDropped(drop);
    WithoutNothing(d, drop);
  }

  lemma {:induction false} DashDropped(drop: set<char>)
    requires '-' in drop && 'C' !in drop
    ensures Without("-C", drop) == "C"
  {
    assert "-C"[1..] == "C" && "C"[1..] == "";
    assert Without("C", drop) == "C" + Without("", drop);
  }

  lemma {:induction false} KeyOfSuffix(c: nat)
    ensures Key(Some("-C" + Digits(c))) == Suffix(c)
  {
    KeyIgnoresStrip("-C" + Digits(c));
    SuffixWithout(Digits(c), {' ', '-', '.'});
  }

  /** The key of a copy: the original's and the suffix, or nothing when there was no order. */
  lemma {:induction false} KeyOfCopy(original: Invoice, c: nat)
    ensures Key(CopyOf(original, c).purchaseOrder)
         == Key(original.purchaseOrder) + if c > 0 && HasOrder(original) then Suffix(c) else ""
  {
    if c > 0 && HasOrder(original) {
      var order := original.purchaseOrder.value;
      KeyConcat(order, "-C" + Digits(c));
      KeyOfSuffix(c);
      assert order + "-C" + Digits(c) == order + ("-C" + Digits(c));
    }
  }

  lemma {:induction false} NoOrderNoKey(invoice: Invoice)
    requires !HasOrder(invoice)
    ensures Key(invoice.purchaseOrder) == ""
  {
  }

  /** Digits hold no C, so the last C of a copied key marks where its suffix starts. */
  lemma {:induction false} SuffixIsReadable(k1: string, c1: nat, k2: string, c2: nat)
    requires k1 + Suffix(c1) == k2 + Suffix(c2)
    ensures k1 == k2 && c1 == c2
  {
    LastC(k1, c1);
    LastC(k2, c2);
    var s := k1 + Suffix(c1);
    assert |k1| == |k2|;
    assert s[..|k1|] == k1 && s[..|k2|] == k2;
    assert s[|k1| + 1..] == Digits(c1) && s[|k2| + 1..] == Digits(c2);
    DigitsInjective(c1, c2);
  }

  lemma {:induction false} LastC(k: string, c: nat)
    ensures (k + Suffix(c))[|k|] == 'C'
    ensures forall i :: |k| < i < |k + Suffix(c)| ==> (k + Suffix(c))[i] != 'C'
  {
    forall i | |k| < i < |k + Suffix(c)|
      ensures (k + Suffix(c))[i] != 'C'
    {
      assert (k + Suffix(c))[i] == Digits(c)[i - |k| - 1];
    }
  }

  // ----- which copies a population of `n` entries holds

  /** Where copy `c` of member `p` stands, if the population is long enough. */
  function PlaceOf(size: nat, c: nat, p: nat): nat {
    c * size + p
  }

  lemma {:induction false} AtLeastOneTimes(x: int, size: nat)
    ensures x >= 1 ==> x * size >= size
    ensures x <= -1 ==> x * size + size <= 0
  {
  }

  lemma {:induction false} PlaceRead(size: nat, c: nat, p: nat)
    requires p < size
    ensures PlaceOf(size, c, p) / size == c && PlaceOf(size, c, p) % size == p
  {
    var i := PlaceOf(size, c, p);
    var q, r := i / size, i % size;
    assert i == q * size + r && 0 <= r < size;
    assert (q - c) * size == p - r;
    AtLeastOneTimes(q - c, size);
  }

  /** Copy `c` holds member `p` when it is a whole copy, or the cut one and long enough. */
  lemma {:induction false} Present(size: nat, n: nat, c: nat, p: nat)
    requires p < size
    ensures PlaceOf(size, c, p) < n <==> c < n / size || (c == n / size && p < n % size)
  {
    var whole, rest := n / size, n % size;
    assert n == whole * size + rest;
    assert (whole - c) * size == whole * size - c * size;
    AtLeastOneTimes(whole - c, size);
  }

  /** `copies(base, n)` */
  function Population(base: seq<Invoice>, n: nat): (out: seq<Invoice>)
    requires base != []
    ensures |out| == n
  {
    seq(n, i requires 0 <= i < n => Entry(base, i))
  }

  /** Which copy of which member stands at position `i`. */
  lemma {:induction false} CopyAt(base: seq<Invoice>, n: nat, i: nat) returns (c: nat, p: nat)
    requires base != [] && i < n
    ensures p < |base| && i == PlaceOf(|base|, c, p) && p == i % |base|
    ensures Population(base, n)[i] == CopyOf(base[p], c)
  {
    c, p := i / |base|, i % |base|;
  }

  lemma {:induction false} MemberOfCopies(base: seq<Invoice>, n: nat, c: nat, p: nat) returns (i: nat)
    requires p < |base| && PlaceOf(|base|, c, p) < n
    ensures i == PlaceOf(|base|, c, p) && i % |base| == p
    ensures Population(base, n)[i] == CopyOf(base[p], c)
  {
    i := PlaceOf(|base|, c, p);
    PlaceRead(|base|, c, p);
  }

  // ----- when the copies keep the duplicates

  ghost predicate DuplicatesKept(base: seq<Invoice>, n: nat)
    requires base != []
  {
    forall i :: 0 <= i < n ==> (FiresAt(Population(base, n), i) <==> FiresAt(base, i % |base|))
  }

  /** A key of the base that is also the key of a copy belongs to two members that were already
      duplicates. */
  ghost predicate CollisionsWereDuplicates(base: seq<Invoice>, n: nat) {
    forall p: nat, q: nat, c: nat ::
      p < |base| && q < |base| && 1 <= c && PlaceOf(|base|, c, p) < n && HasOrder(base[p])
      && Key(base[q].purchaseOrder) == Key(base[p].purchaseOrder) + Suffix(c)
      ==> FiresAt(base, p) && FiresAt(base, q)
  }

  /** At most one order among those copied is nothing but separators. */
  predicate OneBareOrder(base: seq<Invoice>, n: nat) {
    forall p: nat, q: nat ::
      p < q < |base| && |base| + q < n && HasOrder(base[p]) && HasOrder(base[q]) ==>
        Key(base[p].purchaseOrder) != "" || Key(base[q].purchaseOrder) != ""
  }

  /** A duplicate in the cut copy finds a twin there, or a base order that has the name it takes. */
  predicate CutKeepsTwins(base: seq<Invoice>, n: nat)
    requires base != []
  {
    forall p: nat :: p < n % |base| && FiresAt(base, p) ==>
      TwinAmong(base, n % |base|, p) || (n / |base| >= 1 && NameTaken(base, p, n / |base|))
  }

  predicate TwinAmong(base: seq<Invoice>, size: nat, p: nat)
    requires p < size <= |base|
  {
    exists q :: 0 <= q < size && q != p
                && Key(base[q].purchaseOrder) == Key(base[p].purchaseOrder)
  }

  predicate NameTaken(base: seq<Invoice>, p: nat, c: nat)
    requires p < |base|
  {
    exists q :: 0 <= q < |base|
                && Key(base[q].purchaseOrder) == Key(base[p].purchaseOrder) + Suffix(c)
  }

  /** How the keys of two copies can be equal: as copies of one number with one key, or as a copy and
      a base order that has its name. */
  lemma {:induction false} EqualCopiedKeys(one: Invoice, c: nat, other: Invoice, e: nat)
    requires Key(CopyOf(one, c).purchaseOrder) == Key(CopyOf(other, e).purchaseOrder) != ""
    ensures HasOrder(one) && HasOrder(other)
    ensures c == e ==> Key(one.purchaseOrder) == Key(other.purchaseOrder)
    ensures c != e ==> c == 0 || e == 0
    ensures c != e && e == 0 ==> Key(other.purchaseOrder) == Key(one.purchaseOrder) + Suffix(c)
    ensures c != e && c == 0 ==> Key(one.purchaseOrder) == Key(other.purchaseOrder) + Suffix(e)
  {
    hide Key, Suffix, CopyOf, HasOrder;
    KeyOfCopy(one, c);
    KeyOfCopy(other, e);
    var k1, k2 := Key(one.purchaseOrder), Key(other.purchaseOrder);
    assert k1 + "" == k1 && k2 + "" == k2;
    if !HasOrder(one) {
      NoOrderNoKey(one);
    } else if !HasOrder(other) {
      NoOrderNoKey(other);
    } else if c > 0 && e > 0 {
      SuffixIsReadable(k1, c, k2, e);
    }
  }

  /** Copies of one number of two members with one key. */
  lemma {:induction false} SameKeyCopied(one: Invoice, other: Invoice, c: nat)
    requires Key(one.purchaseOrder) == Key(other.purchaseOrder)
    requires HasOrder(one) && HasOrder(other)
    ensures Key(CopyOf(one, c).purchaseOrder) == Key(CopyOf(other, c).purchaseOrder)
    ensures Key(one.purchaseOrder) != "" || c > 0 ==> Key(CopyOf(one, c).purchaseOrder) != ""
  {
    hide Key;
    KeyOfCopy(one, c);
    KeyOfCopy(other, c);
  }

  /** A key is an order's. */
  lemma {:induction false} KeyMeansOrder(invoice: Invoice)
    requires Key(invoice.purchaseOrder) != ""
    ensures HasOrder(invoice)
  {
  }

  /** A duplicate of the base is one in every copy that holds its twin, or meets its own name. */
  lemma {:induction false} DuplicateStays(base: seq<Invoice>, n: nat, c: nat, p: nat)
    requires p < |base| && PlaceOf(|base|, c, p) < n && FiresAt(base, p) && CutKeepsTwins(base, n)
    ensures FiresAt(Population(base, n), PlaceOf(|base|, c, p))
  {
    hide Key, Suffix, CopyOf, FiresAt, HasOrder, Population, PlaceOf;
    var q := FiresHasTwin(base, p);
    KeyMeansOrder(base[p]);
    var i := MemberOfCopies(base, n, c, p);
    Present(|base|, n, c, p);
    if c == n / |base| && !TwinAmong(base, n % |base|, p) {
      q :| 0 <= q < |base| && Key(base[q].purchaseOrder) == Key(base[p].purchaseOrder) + Suffix(c);
      Present(|base|, n, 0, q);
      var j := MemberOfCopies(base, n, 0, q);
      KeyOfCopy(base[p], c);
      KeyOfCopy(base[q], 0);
      assert Key(base[q].purchaseOrder) + "" == Key(base[q].purchaseOrder);
      PlacesDiffer(|base|, c, p, 0, q);
      TwinFires(Population(base, n), i, j);
    } else {
      if c == n / |base| {
        q :| 0 <= q < n % |base| && q != p && Key(base[q].purchaseOrder) == Key(base[p].purchaseOrder);
      }
      KeyMeansOrder(base[q]);
      Present(|base|, n, c, q);
      var j := MemberOfCopies(base, n, c, q);
      SameKeyCopied(base[p], base[q], c);
      PlacesDiffer(|base|, c, p, c, q);
      TwinFires(Population(base, n), i, j);
    }
  }

  lemma {:induction false} PlacesDiffer(size: nat, c: nat, p: nat, e: nat, q: nat)
    requires p < size && q < size && (c != e || p != q)
    ensures PlaceOf(size, c, p) != PlaceOf(size, e, q)
  {
    hide PlaceOf;
    PlaceRead(size, c, p);
    PlaceRead(size, e, q);
  }

  /** No copy becomes a duplicate that its original was not. */
  lemma {:induction false} NoNewDuplicate(base: seq<Invoice>, n: nat, c: nat, p: nat)
    requires p < |base| && PlaceOf(|base|, c, p) < n
    requires CollisionsWereDuplicates(base, n) && OneBareOrder(base, n)
    requires FiresAt(Population(base, n), PlaceOf(|base|, c, p))
    ensures FiresAt(base, p)
  {
    hide Key, Suffix, CopyOf, FiresAt, HasOrder, Population, PlaceOf;
    var i := MemberOfCopies(base, n, c, p);
    var j := FiresHasTwin(Population(base, n), i);
    var e, q := CopyAt(base, n, j);
    EqualCopiedKeys(base[p], c, base[q], e);
    Present(|base|, n, c, p);
    Present(|base|, n, e, q);
    if c == e {
      if Key(base[p].purchaseOrder) == "" {
        BareCopiesAreLater(base, c, p);
        LateEnough(|base|, n, c, if p < q then q else p);
        assert false;
      }
      TwinFires(base, p, q);
    }
  }

  /** A copied order without a key of its own has one by its suffix: it is no base order. */
  lemma {:induction false} BareCopiesAreLater(base: seq<Invoice>, c: nat, p: nat)
    requires p < |base| && Key(CopyOf(base[p], c).purchaseOrder) != "" == Key(base[p].purchaseOrder)
    ensures c > 0
  {
  }

  lemma {:induction false} LateEnough(size: nat, n: nat, c: nat, p: nat)
    requires p < size && 1 <= c && PlaceOf(size, c, p) < n
    ensures size + p < n
  {
    AtLeastOneTimes(c, size);
  }

  /** The claim of `copies`, exactly: every entry fires as its original did if and only if the copied
      keys meet no base key outside existing duplicates, no two bare orders are copied, and the cut
      copy, if there is one, keeps a twin for each of its duplicates. */
  lemma {:induction false} CopiesKeepDuplicates(base: seq<Invoice>, n: nat)
    requires base != []
    ensures DuplicatesKept(base, n) <==>
            CollisionsWereDuplicates(base, n) && OneBareOrder(base, n) && CutKeepsTwins(base, n)
  {
    hide FiresAt, HasOrder, Key, Suffix, Population, PlaceOf, TwinAmong, NameTaken;
    if DuplicatesKept(base, n) {
      forall p: nat, q: nat, c: nat | p < |base| && q < |base| && 1 <= c
             && PlaceOf(|base|, c, p) < n && HasOrder(base[p])
             && Key(base[q].purchaseOrder) == Key(base[p].purchaseOrder) + Suffix(c)
        ensures FiresAt(base, p) && FiresAt(base, q)
      {
        CollisionFires(base, n, p, q, c);
      }
      forall p: nat, q: nat | p < q < |base| && |base| + q < n && HasOrder(base[p]) && HasOrder(base[q])
        ensures Key(base[p].purchaseOrder) != "" || Key(base[q].purchaseOrder) != ""
      {
        if Key(base[p].purchaseOrder) == Key(base[q].purchaseOrder) == "" {
          BareOrdersCollide(base, n, p, q);
        }
      }
      forall p: nat | p < n % |base| && FiresAt(base, p)
        ensures TwinAmong(base, n % |base|, p) || (n / |base| >= 1 && NameTaken(base, p, n / |base|))
      {
        CutTwin(base, n, p);
      }
    }
    if CollisionsWereDuplicates(base, n) && OneBareOrder(base, n) && CutKeepsTwins(base, n) {
      forall i | 0 <= i < n
        ensures FiresAt(Population(base, n), i) <==> FiresAt(base, i % |base|)
      {
        var c, p := CopyAt(base, n, i);
        if FiresAt(base, p) {
          DuplicateStays(base, n, c, p);
        } else if FiresAt(Population(base, n), i) {
          NoNewDuplicate(base, n, c, p);
        }
      }
    }
  }

  lemma {:induction false} CollisionFires(base: seq<Invoice>, n: nat, p: nat, q: nat, c: nat)
    requires p < |base| && q < |base| && 1 <= c && PlaceOf(|base|, c, p) < n && HasOrder(base[p])
    requires Key(base[q].purchaseOrder) == Key(base[p].purchaseOrder) + Suffix(c)
    requires DuplicatesKept(base, n)
    ensures FiresAt(base, p) && FiresAt(base, q)
  {
    hide FiresAt, HasOrder, Key, Population, PlaceOf, CopyOf;
    var i := MemberOfCopies(base, n, c, p);
    Present(|base|, n, c, p);
    Present(|base|, n, 0, q);
    var j := MemberOfCopies(base, n, 0, q);
    KeyOfCopy(base[p], c);
    KeyOfCopy(base[q], 0);
    PlacesDiffer(|base|, c, p, 0, q);
    TwinFires(Population(base, n), i, j);
    TwinFires(Population(base, n), j, i);
  }

  lemma {:induction false} BareOrdersCollide(base: seq<Invoice>, n: nat, p: nat, q: nat)
    requires p < q < |base| && |base| + q < n && HasOrder(base[p]) && HasOrder(base[q])
    requires Key(base[p].purchaseOrder) == Key(base[q].purchaseOrder) == ""
    ensures !DuplicatesKept(base, n)
  {
    var i := MemberOfCopies(base, n, 1, p);
    var j := MemberOfCopies(base, n, 1, q);
    KeyOfCopy(base[p], 1);
    KeyOfCopy(base[q], 1);
    TwinFires(Population(base, n), i, j);
    assert !FiresAt(base, p);
  }

  /** A duplicate that fires in the cut copy has its twin there, or meets its own name. */
  lemma {:induction false} CutTwin(base: seq<Invoice>, n: nat, p: nat)
    requires base != [] && p < n % |base| && FiresAt(base, p) && DuplicatesKept(base, n)
    ensures TwinAmong(base, n % |base|, p) || (n / |base| >= 1 && NameTaken(base, p, n / |base|))
  {
    hide FiresAt, HasOrder, Key, Suffix, Population, PlaceOf, CopyOf;
    var c := n / |base|;
    Present(|base|, n, c, p);
    var i := MemberOfCopies(base, n, c, p);
    var j := FiresHasTwin(Population(base, n), i);
    var e, q := CopyAt(base, n, j);
    EqualCopiedKeys(base[p], c, base[q], e);
    Present(|base|, n, e, q);
  }

  /** The claim fails already for an order and the name its first copy takes. */
  lemma {:induction false} CopyOfAnOrderAlreadyTaken(taken: Invoice, original: Invoice)
    requires Key(original.purchaseOrder) != "" && taken.purchaseOrder == CopiedOrder(original.purchaseOrder, 1)
    ensures !FiresAt([original, taken], 0)
    ensures !DuplicatesKept([original, taken], 4)
  {
    var base := [original, taken];
    KeyOfCopy(original, 1);
    assert HasOrder(original);
    assert Key(base[1].purchaseOrder) == Key(base[0].purchaseOrder) + Suffix(1);
    if FiresAt(base, 0) {
      var j := FiresHasTwin(base, 0);
    }
    assert PlaceOf(2, 1, 0) < 4;
    CopiesKeepDuplicates(base, 4);
  }

  /** And for two members with one order, copied to three entries: the third has lost its twin. */
  lemma {:induction false} CutCopyLosesItsTwin(one: Invoice, other: Invoice)
    requires Key(one.purchaseOrder) == Key(other.purchaseOrder) != ""
    ensures !DuplicatesKept([one, other], 3)
  {
    hide Key, Suffix;
    var base := [one, other];
    TwinFires(base, 0, 1);
    SuffixNotEmpty(1);
    assert |Key(one.purchaseOrder) + Suffix(1)| > |Key(one.purchaseOrder)|;
    CopiesKeepDuplicates(base, 3);
  }

  lemma {:induction false} SuffixNotEmpty(c: nat)
    ensures Suffix(c) != ""
  {
  }

  // ----- the index

  lemma {:induction false} MembersAreIn(positions: seq<nat>)
    ensures forall a :: 0 <= a < |positions| ==> positions[a] in positions
  {
  }

  /** The positions of the members with key `k`, in order. */
  function PositionsWith(population: seq<Invoice>, k: string): (positions: seq<nat>)
    ensures forall i: nat :: i in positions <==>
              i < |population| && Key(population[i].purchaseOrder) == k
    ensures forall a, b :: 0 <= a < b < |positions| ==> positions[a] < positions[b]
  {
    if population == [] then []
    else
      var last := |population| - 1;
      var before := PositionsWith(population[..last], k);
      MembersAreIn(before);
      before + if Key(population[last].purchaseOrder) == k then [last] else []
  }

  function NamesWith(population: seq<Invoice>, k: string): (names: seq<string>)
    ensures |names| == |PositionsWith(population, k)|
  {
    var positions := PositionsWith(population, k);
    seq(|positions|, a requires 0 <= a < |positions| =>
      assert positions[a] in positions; population[positions[a]].name)
  }

  /** One bucket for every key some member has, with the names of the members that have it. */
  ghost predicate IsIndexOf(index: map<string, seq<string>>, population: seq<Invoice>) {
    && (forall k :: k in index <==> k != "" && PositionsWith(population, k) != [])
    && (forall k :: k in index ==> index[k] == NamesWith(population, k))
  }

  /** The loop of `capacity`: `index.setdefault(key, []).append(name)`. */
  method BuildIndex(population: seq<Invoice>) returns (index: map<string, seq<string>>)
    ensures IsIndexOf(index, population)
  {
    index := map[];
    for i := 0 to |population|
      invariant IsIndexOf(index, population[..i])
    {
      var k := Key(population[i].purchaseOrder);
      if k != "" {
        if k !in index {
          index := index[k := []];
        }
        index := index[k := index[k] + [population[i].name]];
      }
      forall j: string
        ensures NamesWith(population[..i + 1], j)
             == NamesWith(population[..i], j) + if j == k then [population[i].name] else []
        ensures |PositionsWith(population[..i + 1], j)|
             == |PositionsWith(population[..i], j)| + if j == k then 1 else 0
      {
        OneMoreName(population, i, j);
      }
    }
    assert population[..|population|] == population;
  }

  lemma {:induction false} OneMoreName(population: seq<Invoice>, i: nat, k: string)
    requires i < |population|
    ensures NamesWith(population[..i + 1], k)
         == NamesWith(population[..i], k)
            + if Key(population[i].purchaseOrder) == k then [population[i].name] else []
    ensures |PositionsWith(population[..i + 1], k)|
         == |PositionsWith(population[..i], k)|
            + if Key(population[i].purchaseOrder) == k then 1 else 0
  {
    assert population[..i + 1][..i] == population[..i];
  }

  /** `INDEXED_DUPLICATE`: the member itself is in the index, so two names make a duplicate. */
  function IndexedDuplicate(invoice: Invoice, index: map<string, seq<string>>): Verdict {
    var order := Key(invoice.purchaseOrder);
    var names := if order != "" && order in index then index[order] else [];
    FiresIf(|names| > 1)
  }

  /** A bucket holds two names exactly when its members have twins. */
  lemma {:induction false} BucketOfTwins(population: seq<Invoice>, i: nat)
    requires i < |population| && Key(population[i].purchaseOrder) != ""
    ensures |PositionsWith(population, Key(population[i].purchaseOrder))| > 1 <==> FiresAt(population, i)
  {
    var positions := PositionsWith(population, Key(population[i].purchaseOrder));
    assert i in positions;
    if |positions| > 1 {
      var j := if positions[0] == i then positions[1] else positions[0];
      assert j in positions;
      TwinFires(population, i, j);
    }
    if FiresAt(population, i) {
      var j := FiresHasTwin(population, i);
      assert j in positions;
    }
  }

  /** The index answers as the scan does, for every member of every population. */
  lemma {:induction false} IndexAgreesWithScan(population: seq<Invoice>, index: map<string, seq<string>>, i: nat)
    requires IsIndexOf(index, population) && i < |population|
    ensures IndexedDuplicate(population[i], index) == R16(population[i], Others(population, i))
  {
    if Key(population[i].purchaseOrder) != "" {
      BucketOfTwins(population, i);
    }
  }

  /** A member with a key stands exactly once in the index: at one place of its own bucket. */
  lemma {:induction false} EachMemberOnce(population: seq<Invoice>, index: map<string, seq<string>>, i: nat)
    requires IsIndexOf(index, population) && i < |population|
    ensures var key := Key(population[i].purchaseOrder);
            && (key != "" <==> exists k :: k in index && i in PositionsWith(population, k))
            && (forall k :: k in index && i in PositionsWith(population, k) ==> k == key)
            && (key != "" ==>
                  exists a :: 0 <= a < |index[key]| && PositionsWith(population, key)[a] == i
                    && index[key][a] == population[i].name
                    && forall b :: 0 <= b < |index[key]| && PositionsWith(population, key)[b] == i
                         ==> b == a)
  {
    var key := Key(population[i].purchaseOrder);
    if key != "" {
      var positions := PositionsWith(population, key);
      assert i in positions;
      assert key in index;
    }
  }
}
