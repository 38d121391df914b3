/** The `SteamSale` object: the held list of sale records, the scrape that
    rebuilds it from the store's deal containers, its rendering, and one
    step of the polling loop.  The fetched page is given as the sequence of
    containers it holds and the clock as the text of the current time. */
module Scraper {
  import opened Results
  import opened Records
  import Titles
  import Ordering
  import Rendering
  import opened SeqFacts

  /** The line `loop` prints before the new listing. */
  const ChangeNotice := "Sale items have changed!!"

  /** What one pass of the `while` body leaves behind: the held list, the
      strings handed to `print`, and the exception that escaped, if any. */
  datatype StepOutcome = StepOutcome(held: seq<SaleItem>, printed: seq<string>, failure: Option<Failure>)

  /** One pass of the `while` body of `loop`, on values, given the outcome
      of the scrape: compare with the held list, and on a difference
      announce, replace and re-render.  A failed scrape leaves everything as
      it was; a failed rendering comes after the held list was replaced. */
  function Step(held: seq<SaleItem>, scraped: Result<seq<SaleItem>, Failure>, now: string): (r: StepOutcome)
    ensures scraped.Err? ==> r == StepOutcome(held, [], Some(scraped.error))
    ensures scraped.Ok? ==>
      r.held == scraped.value &&
      (r.printed != [] <==> scraped.value != held) &&
      (r.printed != [] ==> r.printed[0] == ChangeNotice) &&
      (r.failure.Some? ==> r.failure == Some(FormatTypeError) && r.printed == [ChangeNotice])
    ensures scraped.Ok? && scraped.value == held ==> r.failure.None?
    ensures scraped.Ok? && scraped.value != held ==>
      var text := Rendering.Render(scraped.value, now);
      r.printed == [ChangeNotice] + (if text.Ok? then [text.value] else []) &&
      (r.failure.Some? <==> text.Err?)
  {
    match scraped
    case Err(e) => StepOutcome(held, [], Some(e))
    case Ok(curr) =>
      if curr == held then StepOutcome(held, [], None)
      else
        match Rendering.Render(curr, now)
        case Ok(text) => StepOutcome(curr, [ChangeNotice, text], None)
        case Err(e) => StepOutcome(curr, [ChangeNotice], Some(e))
  }

  /** A second pass that scrapes the same list finds nothing new: whatever
      the first pass printed, the held list is now the scraped one. */
  lemma StepSettles(held: seq<SaleItem>, scraped: Result<seq<SaleItem>, Failure>, now: string, later: string)
    requires scraped.Ok?
    ensures Step(Step(held, scraped, now).held, scraped, later) == StepOutcome(scraped.value, [], None)
  {
  }

  class SteamSale {
    /** `self.sale_items`. */
    var saleItems: seq<SaleItem>

    constructor (items: seq<SaleItem>)
      ensures saleItems == items
    {
      saleItems := items;
    }

    /** `__init__`: the object exists only when the first scrape succeeds. */
    static method Create(cs: seq<Container>) returns (r: Result<SteamSale, Failure>)
      ensures r.Ok? <==> Ordering.SortItems(Collect(cs)).Ok?
      ensures r.Ok? ==> fresh(r.value) && r.value.saleItems == Ordering.SortItems(Collect(cs)).value
      ensures r.Err? ==> r.error == SortTypeError
    {
      var items := ParseStore(cs);
      match items
      case Err(e) =>
        r := Err(e);
      case Ok(list) =>
        var app := new SteamSale(list);
        r := Ok(app);
    }

    /** The `try` block of `parse_store`: the name is always set, then each
        price field in turn until the first lookup that fails. */
    static method FillRecord(c: Container) returns (item: SaleItem)
      ensures item == BuildItem(c)
    {
      var name := Titles.GameName(c.title);
      var fields: seq<string> := [];
      if c.price.Some? {
        fields := fields + [c.price.value];
        if c.origPrice.Some? {
          fields := fields + [c.origPrice.value];
          if c.discount.Some? {
            fields := fields + [c.discount.value];
          }
        }
      }
      item := SaleItem(name, fields);
      BuildItemFields(c);
    }

    /** `parse_store`: build a record per container, append it unless an
        equal one is held already, then sort by name. */
    static method ParseStore(cs: seq<Container>) returns (r: Result<seq<SaleItem>, Failure>)
      ensures r == Ordering.SortItems(Collect(cs))
      ensures r.Ok? <==> |Collect(cs)| <= 1 || Ordering.AllNamed(Collect(cs))
      ensures r.Err? ==> r.error == SortTypeError
      ensures r.Ok? ==> NoDuplicates(r.value) && Ordering.SortedByName(r.value)
      ensures r.Ok? ==> forall c :: c in cs ==> BuildItem(c) in r.value
      ensures r.Ok? ==> forall x :: x in r.value ==> exists c :: c in cs && BuildItem(c) == x
    {
      var saleItems: seq<SaleItem> := [];
      var i := 0;
      while i < |cs|
        invariant 0 <= i <= |cs|
        invariant saleItems == Dedup(Items(cs[..i]))
      {
        ItemsSnoc(cs, i);
        DedupSnoc(Items(cs[..i]), BuildItem(cs[i]));
        var item := FillRecord(cs[i]);
        if item !in saleItems {
          saleItems := saleItems + [item];
        }
        i := i + 1;
      }
      assert cs[..i] == cs;
      r := Ordering.SortItems(saleItems);
      CollectCorrect(cs);
      if r.Ok? {
        NoDuplicatesPermuted(saleItems, r.value);
      }
    }

    /** `sale_items_string`: the header, then a line per record with all
        four keys; a complete record without a name stops it with
        `TypeError`. */
    method SaleItemsString(now: string) returns (r: Result<string, Failure>)
      ensures r == Rendering.Render(saleItems, now)
      ensures r.Err? <==> exists i :: 0 <= i < |saleItems| && Rendering.Complete(saleItems[i]) && saleItems[i].name.None?
      ensures r.Err? ==> r.error == FormatTypeError
    {
      var items := saleItems;
      var out := Rendering.Header(now);
      var i := 0;
      while i < |items|
        invariant 0 <= i <= |items|
        invariant Rendering.AllPrintable(items[..i])
        invariant out == Rendering.Header(now) + Rendering.Lines(items[..i])
      {
        var x := items[i];
        PrefixSnoc(items, i);
        if Rendering.Complete(x) {
          if x.name.None? {
            Rendering.RenderFailsAt(items, i, now);
            return Err(FormatTypeError);
          }
          Assoc(Rendering.Header(now), Rendering.Lines(items[..i]), Rendering.LineOf(x));
          out := out + Rendering.LineOf(x);
        } else {
          AppendEmpty(Rendering.Lines(items[..i]));
        }
        Rendering.LinesSnoc(items[..i], x);
        i := i + 1;
      }
      assert items[..i] == items;
      r := Ok(out);
    }

    /** One pass of the `while` body of `loop`: scrape the page, then
        compare and refresh. */
    method LoopStep(cs: seq<Container>, now: string) returns (printed: seq<string>, failure: Option<Failure>)
      modifies this
      ensures StepOutcome(saleItems, printed, failure) == Step(old(saleItems), Ordering.SortItems(Collect(cs)), now)
    {
      var curr := ParseStore(cs);
      if curr.Err? {
        printed, failure := [], Some(curr.error);
      } else {
        printed, failure := Refresh(curr.value, now);
      }
    }

    /** The `if` of the `while` body: a list that differs from the held one
        is announced, replaces it and is printed. */
    method Refresh(curr: seq<SaleItem>, now: string) returns (printed: seq<string>, failure: Option<Failure>)
      modifies this
      ensures StepOutcome(saleItems, printed, failure) == Step(old(saleItems), Ok(curr), now)
    {
      printed, failure := [], None;
      if curr != saleItems {
        printed := printed + [ChangeNotice];
        saleItems := curr;
        var text := SaleItemsString(now);
        if text.Err? {
          failure := Some(text.error);
          return;
        }
        printed := printed + [text.value];
      }
    }
  }

  /** Sorting keeps the records, so it keeps their membership and keeps
      them free of duplicates. */
  lemma NoDuplicatesPermuted(a: seq<SaleItem>, b: seq<SaleItem>)
    requires NoDuplicates(a) && multiset(a) == multiset(b)
    ensures forall x :: x in b <==> x in a
    ensures NoDuplicates(b)
  {
    forall x ensures x in b <==> x in a {
      assert x in b <==> x in multiset(b);
      assert x in a <==> x in multiset(a);
    }
  }
}
