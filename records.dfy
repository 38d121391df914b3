/** The values `SteamSale.parse_store` works on: a deal container with the
    fields its HTML lookups found, the record (a dict in the source) built
    from one container, and the de-duplicating accumulation of records. */
module Records {
  import opened Results
  import Titles

  /** One `summersale_dailydeal_ctn` container, as its lookups turned out.
      `title` is the detail page's title string, `None` when the deal link or
      the title was missing; each price field is the element's text, `None`
      when the classed element was missing. */
  datatype Container = Container(
    title: Option<string>,
    price: Option<string>,
    origPrice: Option<string>,
    discount: Option<string>)

  /** A sale record: `game_name` (always a key, the value possibly `None`)
      and the values of the keys set after it, in the order `game_price`,
      `game_orig_price`, `game_discount`.  The dict has `1 + |fields|` keys. */
  datatype SaleItem = SaleItem(name: Option<string>, fields: seq<string>)

  /** The exceptions that escape the modelled code. */
  datatype Failure =
    | SortTypeError    // `list.sort` compared a `None` name
    | FormatTypeError  // `str.format` was given a `None` name

  /** The three price lookups, in the order the source makes them. */
  function Lookups(c: Container): seq<Option<string>>
  {
    [c.price, c.origPrice, c.discount]
  }

  /** The values of the lookups that succeed before the first one that
      fails; the `AttributeError` of that one ends the extraction. */
  function LeadingPresent(lookups: seq<Option<string>>): (r: seq<string>)
    ensures |r| <= |lookups|
    ensures forall i :: 0 <= i < |r| ==> lookups[i] == Some(r[i])
    ensures |r| < |lookups| ==> lookups[|r|].None?
  {
    if lookups == [] || lookups[0].None? then []
    else [lookups[0].value] + LeadingPresent(lookups[1..])
  }

  /** The record the `try` block of `parse_store` builds for a container. */
  function BuildItem(c: Container): (r: SaleItem)
    ensures |r.fields| <= 3
    ensures r.name.None? <==> c.title.None?
    ensures |r.fields| == 3 <==> c.price.Some? && c.origPrice.Some? && c.discount.Some?
  {
    var fields := LeadingPresent(Lookups(c));
    assert Lookups(c)[0] == c.price && Lookups(c)[1] == c.origPrice && Lookups(c)[2] == c.discount;
    SaleItem(Titles.GameName(c.title), fields)
  }

  /** The keys of a record, lookup by lookup: extraction stops at the first
      missing element and no later key is set. */
  lemma BuildItemFields(c: Container)
    ensures BuildItem(c).fields ==
      if c.price.None? then []
      else if c.origPrice.None? then [c.price.value]
      else if c.discount.None? then [c.price.value, c.origPrice.value]
      else [c.price.value, c.origPrice.value, c.discount.value]
  {
    var l3 := Lookups(c);
    var l2, l1 := [c.origPrice, c.discount], [c.discount];
    assert l3[1..] == l2 && l2[1..] == l1 && l1[1..] == [];
    assert LeadingPresent(l1) == if c.discount.None? then [] else [c.discount.value];
    assert LeadingPresent(l2) == if c.origPrice.None? then [] else [c.origPrice.value] + LeadingPresent(l1);
    assert LeadingPresent(l3) == if c.price.None? then [] else [c.price.value] + LeadingPresent(l2);
  }

  /** Every record occurs at most once. */
  predicate NoDuplicates(s: seq<SaleItem>)
  {
    forall x :: x in s ==> multiset(s)[x] == 1
  }

  /** The record of each container, in container order. */
  function Items(cs: seq<Container>): (r: seq<SaleItem>)
    ensures |r| == |cs|
  {
    if cs == [] then [] else Items(cs[..|cs| - 1]) + [BuildItem(cs[|cs| - 1])]
  }

  /** `records` in order, each appended only when no equal record is
      already held: the accumulation of `parse_store`. */
  function Dedup(records: seq<SaleItem>): (r: seq<SaleItem>)
    ensures |r| <= |records|
    ensures forall i :: 0 <= i < |r| ==> r[i] in records
  {
    if records == [] then []
    else
      var held := Dedup(records[..|records| - 1]);
      var item := records[|records| - 1];
      if item in held then held else held + [item]
  }

  /** The list `parse_store` holds before it sorts. */
  function Collect(cs: seq<Container>): (r: seq<SaleItem>)
    ensures |r| <= |cs|
  {
    Dedup(Items(cs))
  }

  // ---------------------------------------------------------------------
  // Lemmas

  /** Two positions of a sequence without duplicates hold different records. */
  lemma DistinctPositions(s: seq<SaleItem>, i: nat, j: nat)
    requires NoDuplicates(s)
    requires i < j < |s|
    ensures s[i] != s[j]
  {
    assert s == s[..j] + s[j..];
    assert s[i] in multiset(s[..j]);
    assert s[j] in multiset(s[j..]);
    assert multiset(s)[s[j]] == multiset(s[..j])[s[j]] + multiset(s[j..])[s[j]];
  }

  /** One more record is appended unless an equal record is already held. */
  lemma DedupSnoc(records: seq<SaleItem>, x: SaleItem)
    ensures Dedup(records + [x]) == if x in Dedup(records) then Dedup(records) else Dedup(records) + [x]
  {
  }

  lemma {:induction false} DedupNoDuplicates(records: seq<SaleItem>)
    ensures NoDuplicates(Dedup(records))
  {
    if records != [] {
      DedupNoDuplicates(records[..|records| - 1]);
    }
  }

  /** The held list has exactly the records seen: each is in it, and nothing
      else is. */
  lemma {:induction false} DedupMembers(records: seq<SaleItem>)
    ensures forall x :: x in Dedup(records) <==> x in records
  {
    if records != [] {
      var init, last := records[..|records| - 1], records[|records| - 1];
      DedupMembers(init);
      assert records == init + [last];
    }
  }

  /** When all records are different nothing is skipped. */
  lemma {:induction false} DedupDistinct(records: seq<SaleItem>)
    requires forall i, j :: 0 <= i < j < |records| ==> records[i] != records[j]
    ensures Dedup(records) == records
  {
    if records != [] {
      var init, last := records[..|records| - 1], records[|records| - 1];
      DedupDistinct(init);
      assert last !in init;
      assert records == init + [last];
    }
  }

  /** A record equal to an earlier one changes nothing. */
  lemma DedupSkipsRepeat(records: seq<SaleItem>, x: SaleItem)
    requires x in records
    ensures Dedup(records + [x]) == Dedup(records)
  {
    DedupMembers(records);
    DedupSnoc(records, x);
  }

  /** The records of the containers, one prefix at a time. */
  lemma ItemsSnoc(cs: seq<Container>, i: nat)
    requires i < |cs|
    ensures Items(cs[..i + 1]) == Items(cs[..i]) + [BuildItem(cs[i])]
  {
    assert cs[..i + 1][..i] == cs[..i];
  }

  /** The containers' records are exactly the records of the containers. */
  lemma {:induction false} ItemsMembers(cs: seq<Container>)
    ensures forall c :: c in cs ==> BuildItem(c) in Items(cs)
    ensures forall x :: x in Items(cs) ==> exists c :: c in cs && BuildItem(c) == x
  {
    if cs != [] {
      var init, last := cs[..|cs| - 1], cs[|cs| - 1];
      ItemsMembers(init);
      assert cs == init + [last];
      forall x | x in Items(cs) ensures exists c :: c in cs && BuildItem(c) == x {
        if x in Items(init) {
          var c :| c in init && BuildItem(c) == x;
          assert c in cs;
        } else {
          assert BuildItem(last) == x;
        }
      }
    }
  }

  /** The held list is duplicate-free, holds every container's record, and
      holds nothing but containers' records. */
  lemma CollectCorrect(cs: seq<Container>)
    ensures NoDuplicates(Collect(cs))
    ensures forall c :: c in cs ==> BuildItem(c) in Collect(cs)
    ensures forall x :: x in Collect(cs) ==> exists c :: c in cs && BuildItem(c) == x
  {
    DedupNoDuplicates(Items(cs));
    DedupMembers(Items(cs));
    ItemsMembers(cs);
  }
}
