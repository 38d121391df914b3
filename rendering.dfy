/** The text `SteamSale.sale_items_string` builds: a two-line header with
    the time of rendering, then one fixed-width line per record that has all
    four keys.  Python's `format` pads a field to its width and never cuts it
    short. */
module Rendering {
  import opened Results
  import opened Records
  import opened SeqFacts

  function Max(a: nat, b: nat): nat
  {
    if a < b then b else a
  }

  /** `n` copies of `c`. */
  function Fill(c: char, n: nat): (r: string)
    ensures |r| == n
    ensures forall i :: 0 <= i < n ==> r[i] == c
  {
    seq(n, _ => c)
  }

  /** `format(s, fill + '<' + width)`: `fill` is added behind `s` until the
      width is reached. */
  function PadRight(s: string, width: nat, fill: char): (r: string)
    ensures |r| == Max(|s|, width)
    decreases width - |s|
  {
    if |s| >= width then s else PadRight(s + [fill], width, fill)
  }

  /** `format(s, fill + '>' + width)`: `fill` is added in front of `s` until
      the width is reached. */
  function PadLeft(s: string, width: nat, fill: char): (r: string)
    ensures |r| == Max(|s|, width)
    decreases width - |s|
  {
    if |s| >= width then s else PadLeft([fill] + s, width, fill)
  }

  /** `'{game_name:.<58}{game_price:.>7} ({game_orig_price:>7}){game_discount:>5}\n'`. */
  function ItemLine(name: string, price: string, orig: string, discount: string): (r: string)
    ensures |r| == Max(|name|, 58) + Max(|price|, 7) + Max(|orig|, 7) + Max(|discount|, 5) + 4
  {
    PadRight(name, 58, '.') + PadLeft(price, 7, '.') + " (" + PadLeft(orig, 7, ' ') + ")"
      + PadLeft(discount, 5, ' ') + "\n"
  }

  /** `'Games on Sale ({})\n{:=^80}\n'.format(now, '')`; `now` is the text of
      the timestamp. */
  function Header(now: string): (r: string)
    ensures |r| == |now| + 98
  {
    "Games on Sale (" + now + ")\n" + Fill('=', 80) + "\n"
  }

  /** The record has all four keys (`len(i) == 4`). */
  predicate Complete(x: SaleItem)
  {
    |x.fields| == 3
  }

  /** `format` can print the record: a complete record needs a name, since
      a `None` name with a width raises `TypeError`. */
  predicate Printable(x: SaleItem)
  {
    !Complete(x) || x.name.Some?
  }

  predicate AllPrintable(items: seq<SaleItem>)
  {
    forall i :: 0 <= i < |items| ==> Printable(items[i])
  }

  /** The line of one record; an incomplete record adds nothing. */
  function LineOf(x: SaleItem): (r: string)
    requires Printable(x)
    ensures r == "" <==> !Complete(x)
  {
    if Complete(x) then ItemLine(x.name.value, x.fields[0], x.fields[1], x.fields[2]) else ""
  }

  /** The body lines, in list order. */
  function Lines(items: seq<SaleItem>): (r: string)
    requires AllPrintable(items)
    ensures r == "" <==> CompleteItems(items) == []
  {
    if items == [] then "" else Lines(items[..|items| - 1]) + LineOf(items[|items| - 1])
  }

  /** The whole text, or the `TypeError` of a complete record without name. */
  function Render(items: seq<SaleItem>, now: string): (r: Result<string, Failure>)
    ensures r.Err? <==> exists i :: 0 <= i < |items| && Complete(items[i]) && items[i].name.None?
    ensures r.Err? ==> r.error == FormatTypeError
  {
    if AllPrintable(items) then Ok(Header(now) + Lines(items)) else Err(FormatTypeError)
  }

  /** The records that get a line, in list order. */
  function CompleteItems(items: seq<SaleItem>): (r: seq<SaleItem>)
    ensures |r| <= |items|
    ensures forall i :: 0 <= i < |r| ==> Complete(r[i]) && r[i] in items
    ensures forall x :: x in items && Complete(x) ==> x in r
  {
    if items == [] then []
    else
      var init := items[..|items| - 1];
      var x := items[|items| - 1];
      assert forall y :: y in init ==> y in items;
      CompleteItems(init) + (if Complete(x) then [x] else [])
  }

  function CountChar(c: char, s: string): nat
  {
    if s == [] then 0 else (if s[0] == c then 1 else 0) + CountChar(c, s[1..])
  }

  /** No value of the record holds a line break. */
  predicate SingleLine(x: SaleItem)
  {
    (x.name.Some? ==> '\n' !in x.name.value) &&
    forall i :: 0 <= i < |x.fields| ==> '\n' !in x.fields[i]
  }

  // ---------------------------------------------------------------------
  // Lemmas

  lemma {:induction false} CountCharAppend(c: char, a: string, b: string)
    ensures CountChar(c, a + b) == CountChar(c, a) + CountChar(c, b)
  {
    if a == [] {
      assert a + b == b;
    } else {
      CountCharAppend(c, a[1..], b);
      assert (a + b)[1..] == a[1..] + b;
    }
  }

  lemma {:induction false} CountCharAbsent(c: char, s: string)
    requires c !in s
    ensures CountChar(c, s) == 0
  {
    if s != [] {
      CountCharAbsent(c, s[1..]);
    }
  }

  /** `format` with `<` keeps the value in front and fills behind it; a
      value at least as wide as the field is printed whole. */
  lemma {:induction false} PadRightShape(s: string, width: nat, fill: char)
    ensures var r := PadRight(s, width, fill);
      r[..|s|] == s && (forall i :: |s| <= i < |r| ==> r[i] == fill) &&
      (|s| >= width ==> r == s)
    decreases width - |s|
  {
    if |s| < width {
      var s' := s + [fill];
      PadRightShape(s', width, fill);
      var r := PadRight(s, width, fill);
      assert r == PadRight(s', width, fill);
      assert r[..|s|] == r[..|s'|][..|s|];
      assert r[|s|] == r[..|s'|][|s|] == fill;
    }
  }

  /** `format` with `>` fills in front and ends with the value. */
  lemma {:induction false} PadLeftShape(s: string, width: nat, fill: char)
    ensures var r := PadLeft(s, width, fill);
      r[|r| - |s|..] == s && (forall i :: 0 <= i < |r| - |s| ==> r[i] == fill) &&
      (|s| >= width ==> r == s)
    decreases width - |s|
  {
    if |s| < width {
      var s' := [fill] + s;
      PadLeftShape(s', width, fill);
      var r := PadLeft(s, width, fill);
      assert r == PadLeft(s', width, fill);
      var k := |r| - |s'|;
      DropDrop(r, k, 1);
      assert s'[1..] == s;
      assert r[k] == r[k..][0] == fill;
    }
  }

  /** Padding brings in no character but the fill. */
  lemma PadKeepsOut(c: char, s: string, width: nat, fill: char)
    requires c !in s && c != fill
    ensures c !in PadRight(s, width, fill) && c !in PadLeft(s, width, fill)
  {
    PadRightShape(s, width, fill);
    PadLeftShape(s, width, fill);
    var r, l := PadRight(s, width, fill), PadLeft(s, width, fill);
    forall i | 0 <= i < |r| ensures r[i] != c {
      if i < |s| {
        assert r[i] == r[..|s|][i];
      }
    }
    forall i | 0 <= i < |l| ensures l[i] != c {
      if i >= |l| - |s| {
        assert l[i] == l[|l| - |s|..][i - (|l| - |s|)];
      }
    }
  }

  /** Each field is padded, never cut: the name opens the line and the
      discount and a line break close it. */
  lemma ItemLineEnds(name: string, price: string, orig: string, discount: string)
    ensures |ItemLine(name, price, orig, discount)| == Max(|name|, 58) + Max(|price|, 7) + Max(|orig|, 7) + Max(|discount|, 5) + 4
    ensures ItemLine(name, price, orig, discount)[..|name|] == name
    ensures var line := ItemLine(name, price, orig, discount);
      line[|line| - |discount| - 1..] == discount + "\n"
  {
    var n, d := PadRight(name, 58, '.'), PadLeft(discount, 5, ' ');
    var line := ItemLine(name, price, orig, discount);
    assert line[..|name|] == name by {
      PadRightShape(name, 58, '.');
      var rest := PadLeft(price, 7, '.') + " (" + PadLeft(orig, 7, ' ') + ")" + d + "\n";
      assert line == n + rest;
      SplitAt(n, rest);
      assert line[..|name|] == line[..|n|][..|name|];
    }
    assert line[|line| - |discount| - 1..] == discount + "\n" by {
      PadLeftShape(discount, 5, ' ');
      var front := n + PadLeft(price, 7, '.') + " (" + PadLeft(orig, 7, ' ') + ")";
      var tail := d + "\n";
      assert line == front + tail;
      SplitAt(front, tail);
      var k := |d| - |discount|;
      DropDrop(line, |front|, k);
      DropAppend(d, "\n", k);
    }
  }

  /** When every value fits its width the line is 81 characters long, with
      the separators in fixed columns. */
  lemma ItemLineColumns(name: string, price: string, orig: string, discount: string)
    requires |name| <= 58 && |price| <= 7 && |orig| <= 7 && |discount| <= 5
    ensures var line := ItemLine(name, price, orig, discount);
      |line| == 81 && line[..58] == PadRight(name, 58, '.') &&
      line[65] == ' ' && line[66] == '(' && line[74] == ')' && line[80] == '\n'
  {
  }

  lemma ItemLineCount(name: string, price: string, orig: string, discount: string)
    requires '\n' !in name && '\n' !in price && '\n' !in orig && '\n' !in discount
    ensures CountChar('\n', ItemLine(name, price, orig, discount)) == 1
  {
    var n, p, o, d := PadRight(name, 58, '.'), PadLeft(price, 7, '.'), PadLeft(orig, 7, ' '), PadLeft(discount, 5, ' ');
    PadKeepsOut('\n', name, 58, '.');
    PadKeepsOut('\n', price, 7, '.');
    PadKeepsOut('\n', orig, 7, ' ');
    PadKeepsOut('\n', discount, 5, ' ');
    var body := n + p + " (" + o + ")" + d;
    assert '\n' !in body;
    CountCharAbsent('\n', body);
    CountCharAppend('\n', body, "\n");
  }

  /** The header is two lines: the title with the timestamp, then a rule
      of 80 `=`. */
  lemma HeaderLayout(now: string)
    ensures var h := Header(now);
      |h| == |now| + 98 && h[..15] == "Games on Sale (" && h[15..|now| + 15] == now &&
      h[|now| + 15] == ')' && h[|now| + 16] == '\n' &&
      (forall i :: |now| + 17 <= i < |now| + 97 ==> h[i] == '=') && h[|now| + 97] == '\n'
    ensures '\n' !in now ==> CountChar('\n', Header(now)) == 2
  {
    var h, t, f := Header(now), "Games on Sale (", Fill('=', 80);
    var a := t + now;
    var first := a + ")";
    var rest := now + ")\n" + f + "\n";
    assert h == t + rest;
    SplitAt(t, rest);
    SplitAt(now, ")\n" + f + "\n");
    assert h[15..] == rest;
    assert h[15..|now| + 15] == rest[..|now|];
    var c := first + "\n" + f;
    assert h == c + "\n";
    forall i | |now| + 17 <= i < |now| + 97 ensures h[i] == '=' {
      assert h[i] == c[i] == f[i - |now| - 17];
    }
    if '\n' !in now {
      assert '\n' !in first;
      CountCharAbsent('\n', first);
      CountCharAbsent('\n', f);
      CountCharAppend('\n', first, "\n");
      CountCharAppend('\n', first + "\n", f);
      CountCharAppend('\n', c, "\n");
    }
  }

  /** The lines of a concatenation are the lines of its parts: the text
      follows list order. */
  lemma {:induction false} LinesAppend(a: seq<SaleItem>, b: seq<SaleItem>)
    requires AllPrintable(a) && AllPrintable(b)
    ensures AllPrintable(a + b)
    ensures Lines(a + b) == Lines(a) + Lines(b)
    decreases |b|
  {
    var ab := a + b;
    assert AllPrintable(ab) by {
      forall i | 0 <= i < |ab| ensures Printable(ab[i]) {
        if i < |a| {
          assert ab[i] == a[i];
        } else {
          assert ab[i] == b[i - |a|];
        }
      }
    }
    if b == [] {
      assert ab == a;
    } else {
      var init, last := b[..|b| - 1], b[|b| - 1];
      assert AllPrintable(init) by {
        forall i | 0 <= i < |init| ensures Printable(init[i]) {
          assert init[i] == b[i];
        }
      }
      LinesAppend(a, init);
      assert ab[..|ab| - 1] == a + init;
      assert ab[|ab| - 1] == last;
      assert Lines(ab) == Lines(a + init) + LineOf(last);
      assert Lines(b) == Lines(init) + LineOf(last);
      Assoc(Lines(a), Lines(init), LineOf(last));
    }
  }

  /** A complete record without a name stops the rendering. */
  lemma RenderFailsAt(items: seq<SaleItem>, i: nat, now: string)
    requires i < |items| && Complete(items[i]) && items[i].name.None?
    ensures Render(items, now) == Err(FormatTypeError)
  {
  }

  /** One more record adds its line at the end. */
  lemma LinesSnoc(items: seq<SaleItem>, x: SaleItem)
    requires AllPrintable(items) && Printable(x)
    ensures AllPrintable(items + [x])
    ensures Lines(items + [x]) == Lines(items) + LineOf(x)
  {
  }

  /** The line of one record, empty when the record is incomplete. */
  lemma LinesOne(x: SaleItem)
    requires Printable(x)
    ensures AllPrintable([x])
    ensures Lines([x]) == LineOf(x)
  {
  }

  /** Only complete records reach the text: rendering the complete records
      alone gives the same lines. */
  lemma {:induction false} LinesOfComplete(items: seq<SaleItem>)
    requires AllPrintable(items)
    ensures AllPrintable(CompleteItems(items))
    ensures Lines(items) == Lines(CompleteItems(items))
  {
    if items != [] {
      var init, x := items[..|items| - 1], items[|items| - 1];
      assert AllPrintable(init) by {
        forall i | 0 <= i < |init| ensures Printable(init[i]) {
          assert init[i] == items[i];
        }
      }
      LinesOfComplete(init);
      var ci := CompleteItems(init);
      assert Lines(items) == Lines(init) + LineOf(x);
      if Complete(x) {
        LinesOne(x);
        LinesAppend(ci, [x]);
        assert CompleteItems(items) == ci + [x];
      } else {
        assert CompleteItems(items) == ci + [];
        assert ci + [] == ci;
        assert Lines(init) + "" == Lines(init);
      }
    }
  }

  /** One line break per complete record: the body has exactly as many lines
      as there are records with four keys. */
  lemma {:induction false} LinesCount(items: seq<SaleItem>)
    requires AllPrintable(items)
    requires forall i :: 0 <= i < |items| ==> SingleLine(items[i])
    ensures CountChar('\n', Lines(items)) == |CompleteItems(items)|
  {
    if items != [] {
      var init, x := items[..|items| - 1], items[|items| - 1];
      assert AllPrintable(init);
      assert forall i :: 0 <= i < |init| ==> SingleLine(init[i]) by {
        assert forall i :: 0 <= i < |init| ==> init[i] == items[i];
      }
      LinesCount(init);
      var ci := CompleteItems(init);
      assert Lines(items) == Lines(init) + LineOf(x);
      if Complete(x) {
        assert SingleLine(x);
        assert '\n' !in x.fields[0] && '\n' !in x.fields[1] && '\n' !in x.fields[2];
        var line := LineOf(x);
        ItemLineCount(x.name.value, x.fields[0], x.fields[1], x.fields[2]);
        assert Lines(items) == Lines(init) + line;
        CountCharAppend('\n', Lines(init), line);
        assert CompleteItems(items) == ci + [x];
      } else {
        assert Lines(init) + "" == Lines(init);
        assert CompleteItems(items) == ci + [];
        assert ci + [] == ci;
      }
    }
  }

  /** The rendered text: an error exactly when a complete record has no
      name; otherwise the header followed by one line per complete record. */
  lemma RenderShape(items: seq<SaleItem>, now: string)
    requires '\n' !in now
    requires forall i :: 0 <= i < |items| ==> SingleLine(items[i])
    ensures Render(items, now).Err? <==> exists i :: 0 <= i < |items| && Complete(items[i]) && items[i].name.None?
    ensures Render(items, now).Ok? ==>
      var text := Render(items, now).value;
      text == Header(now) + Lines(CompleteItems(items)) &&
      text[..|now| + 98] == Header(now) &&
      CountChar('\n', text) == 2 + |CompleteItems(items)|
  {
    if AllPrintable(items) {
      LinesOfComplete(items);
      HeaderLayout(now);
      LinesCount(items);
      CountCharAppend('\n', Header(now), Lines(items));
    }
  }
}
