/** The title cleanup of `SteamSale.get_game_name`: the anchored pattern
    `^(Save) [0-9]*%* (on)+ ` is removed from the detail page's title, then
    every occurrence of the literal `on Steam` is deleted.  The pattern is
    matched by a small scanner; the lemmas show that the scanner removes
    exactly the prefixes the pattern describes. */
module Titles {
  import opened Results

  /** The literal that `str.replace` deletes. */
  const Steam: string := "on Steam"

  predicate IsDigit(c: char) { '0' <= c <= '9' }

  function Repeat(s: string, k: nat): string
  {
    if k == 0 then "" else s + Repeat(s, k - 1)
  }

  // ---------------------------------------------------------------------
  // The pattern `^(Save) [0-9]*%* (on)+ `, described declaratively

  /** The text matched by the pattern: "Save", a space, the digit run `d`,
      the percent run `p`, a space, `k` copies of "on" and a space. */
  function SavePrefixText(d: string, p: string, k: nat): string
  {
    "Save " + d + p + " " + Repeat("on", k) + " "
  }

  /** The parts the pattern allows: `[0-9]*`, `%*` and `(on)+`. */
  predicate PrefixArgs(d: string, p: string, k: nat)
  {
    (forall i :: 0 <= i < |d| ==> IsDigit(d[i])) &&
    (forall i :: 0 <= i < |p| ==> p[i] == '%') &&
    k >= 1
  }

  // ---------------------------------------------------------------------
  // The scanner

  /** Length of the greedy `[0-9]*` at the front of `s`. */
  function DigitSpan(s: string): (n: nat)
    ensures n <= |s|
    ensures forall i :: 0 <= i < n ==> IsDigit(s[i])
    ensures n == |s| || !IsDigit(s[n])
  {
    if s != [] && IsDigit(s[0]) then 1 + DigitSpan(s[1..]) else 0
  }

  /** Length of the greedy `%*` at the front of `s`. */
  function PercentSpan(s: string): (n: nat)
    ensures n <= |s|
    ensures forall i :: 0 <= i < n ==> s[i] == '%'
    ensures n == |s| || s[n] != '%'
  {
    if s != [] && s[0] == '%' then 1 + PercentSpan(s[1..]) else 0
  }

  /** Number of copies of "on" at the front of `s` (the greedy `(on)*`). */
  function OnSpan(s: string): (k: nat)
    ensures 2 * k <= |s| && s[..2 * k] == Repeat("on", k)
    ensures !(2 * k + 2 <= |s| && s[2 * k] == 'o' && s[2 * k + 1] == 'n')
  {
    if |s| >= 2 && s[0] == 'o' && s[1] == 'n' then
      var k := 1 + OnSpan(s[2..]);
      assert s[..2 * k] == s[..2] + s[2..][..2 * (k - 1)];
      k
    else 0
  }

  /** The `(on)+ ` stage: at least one "on", then a space; gives the rest. */
  function StripOns(v: string): (r: Option<string>)
    ensures r.Some? ==> OnSpan(v) >= 1 && v == Repeat("on", OnSpan(v)) + " " + r.value
  {
    var k := OnSpan(v);
    if k >= 1 && 2 * k < |v| && v[2 * k] == ' ' then
      assert v == v[..2 * k] + [v[2 * k]] + v[2 * k + 1..];
      Some(v[2 * k + 1..])
    else None
  }

  /** The `%* ` stage followed by the `(on)+ ` stage. */
  function StripPercents(u: string): (r: Option<string>)
  {
    var q := PercentSpan(u);
    if q < |u| && u[q] == ' ' then StripOns(u[q + 1..]) else None
  }

  /** The `[0-9]*` stage followed by the later stages. */
  function StripRuns(t: string): (r: Option<string>)
  {
    StripPercents(t[DigitSpan(t)..])
  }

  /** `re.sub('^(Save) [0-9]*\%* (on)+ ', '', s)`: the match can only start
      at position 0, and then only one match is possible. */
  function StripSavePrefix(s: string): (r: string)
    ensures r != s ==> |s| >= 5 && s[..5] == "Save "
  {
    if |s| >= 5 && s[..5] == "Save " then
      match StripRuns(s[5..])
      case Some(rest) => rest
      case None => s
    else s
  }

  /** True when `pat` occurs in `s` at position `i`. */
  predicate OccursAt(s: string, pat: string, i: nat)
  {
    i + |pat| <= |s| && s[i..i + |pat|] == pat
  }

  lemma OccursShift(s: string, pat: string, i: nat)
    requires s != []
    ensures OccursAt(s[1..], pat, i) <==> OccursAt(s, pat, i + 1)
  {
  }

  predicate Contains(s: string, pat: string)
  {
    exists i: nat :: i <= |s| && OccursAt(s, pat, i)
  }

  /** `s.replace(pat, '')`: scanning from the left, each occurrence found is
      deleted and the scan resumes after it. */
  function RemoveAll(s: string, pat: string): (r: string)
    requires pat != ""
    ensures |r| <= |s|
    decreases |s|
  {
    if s == [] then []
    else if |pat| <= |s| && s[..|pat|] == pat then RemoveAll(s[|pat|..], pat)
    else [s[0]] + RemoveAll(s[1..], pat)
  }

  /** `get_game_name`: `None` when the deal link or the title string could
      not be found, otherwise the cleaned title. */
  function GameName(title: Option<string>): (r: Option<string>)
    ensures r.None? <==> title.None?
    ensures r.Some? ==> |r.value| <= |title.value|
  {
    match title
    case None => None
    case Some(t) => Some(RemoveAll(StripSavePrefix(t), Steam))
  }

  // ---------------------------------------------------------------------
  // Lemmas: the scanner against the declarative pattern

  lemma {:induction false} RepeatOnAt(k: nat, i: nat)
    requires i < 2 * k
    ensures |Repeat("on", k)| == 2 * k
    ensures Repeat("on", k)[i] == if i % 2 == 0 then 'o' else 'n'
  {
    if i >= 2 {
      RepeatOnAt(k - 1, i - 2);
    } else if k > 1 {
      RepeatOnAt(k - 1, 0);
    } else {
      assert Repeat("on", k) == "on";
    }
  }

  lemma DigitSpanIs(s: string, n: nat)
    requires n <= |s|
    requires forall i :: 0 <= i < n ==> IsDigit(s[i])
    requires n == |s| || !IsDigit(s[n])
    ensures DigitSpan(s) == n
  {
  }

  lemma PercentSpanIs(s: string, n: nat)
    requires n <= |s|
    requires forall i :: 0 <= i < n ==> s[i] == '%'
    requires n == |s| || s[n] != '%'
    ensures PercentSpan(s) == n
  {
  }

  lemma {:induction false} OnSpanIs(s: string, k: nat)
    requires 2 * k < |s| && s[..2 * k] == Repeat("on", k) && s[2 * k] == ' '
    ensures OnSpan(s) == k
  {
    if k > 0 {
      var t := s[2..];
      assert s[..2 * k] == "on" + Repeat("on", k - 1);
      assert s[0] == s[..2 * k][0] && s[1] == s[..2 * k][1];
      assert t[..2 * (k - 1)] == s[..2 * k][2..];
      assert t[2 * (k - 1)] == s[2 * k];
      OnSpanIs(t, k - 1);
    }
  }

  lemma StripOnsOf(k: nat, rest: string)
    requires k >= 1
    ensures StripOns(Repeat("on", k) + " " + rest) == Some(rest)
  {
    var v := Repeat("on", k) + " " + rest;
    RepeatOnAt(k, 0);
    assert v[..2 * k] == Repeat("on", k);
    OnSpanIs(v, k);
    assert v[2 * k + 1..] == rest;
  }

  lemma StripPercentsOf(p: string, v: string)
    requires forall i :: 0 <= i < |p| ==> p[i] == '%'
    ensures StripPercents(p + " " + v) == StripOns(v)
  {
    var u := p + " " + v;
    assert u[|p|] == ' ';
    PercentSpanIs(u, |p|);
    assert u[|p| + 1..] == v;
  }

  lemma StripRunsOf(d: string, u: string)
    requires forall i :: 0 <= i < |d| ==> IsDigit(d[i])
    requires u == [] || !IsDigit(u[0])
    ensures StripRuns(d + u) == StripPercents(u)
  {
    var t := d + u;
    assert |u| > 0 ==> t[|d|] == u[0];
    DigitSpanIs(t, |d|);
    assert t[|d|..] == u;
  }

  lemma SavePrefixTextThen(d: string, p: string, k: nat, rest: string)
    ensures SavePrefixText(d, p, k) + rest
         == "Save " + (d + (p + " " + (Repeat("on", k) + " " + rest)))
  {
  }

  /** Every title that starts with text the pattern matches loses exactly
      that text. */
  lemma StripRemovesPrefix(d: string, p: string, k: nat, rest: string)
    requires PrefixArgs(d, p, k)
    ensures StripSavePrefix(SavePrefixText(d, p, k) + rest) == rest
  {
    var v := Repeat("on", k) + " " + rest;
    var u := p + " " + v;
    var t := d + u;
    var s := SavePrefixText(d, p, k) + rest;
    SavePrefixTextThen(d, p, k, rest);
    assert s == "Save " + t;
    assert s[..5] == "Save " && s[5..] == t;
    StripOnsOf(k, rest);
    StripPercentsOf(p, v);
    assert u[0] == if |p| == 0 then ' ' else p[0];
    StripRunsOf(d, u);
  }

  /** Every change the cleanup makes is the removal of one prefix that the
      pattern matches. */
  lemma StripSound(s: string)
    ensures StripSavePrefix(s) != s ==>
      exists d: string, p: string, k: nat ::
        PrefixArgs(d, p, k) && s == SavePrefixText(d, p, k) + StripSavePrefix(s)
  {
    if StripSavePrefix(s) != s {
      var rest := StripSavePrefix(s);
      var t := s[5..];
      var j := DigitSpan(t);
      var u := t[j..];
      var q := PercentSpan(u);
      var v := u[q + 1..];
      var k := OnSpan(v);
      var d, p := t[..j], u[..q];
      assert StripRuns(t) == Some(rest);
      assert q < |u| && u[q] == ' ' && StripOns(v) == Some(rest);
      assert v == Repeat("on", k) + " " + rest && k >= 1;
      assert u == p + " " + v by {
        assert u == u[..q] + [u[q]] + u[q + 1..];
      }
      assert t == d + u;
      assert s == "Save " + t by {
        assert s == s[..5] + s[5..];
      }
      assert PrefixArgs(d, p, k);
      SavePrefixTextThen(d, p, k, rest);
    }
  }

  // ---------------------------------------------------------------------
  // Lemmas: the literal deletion

  /** The deletion leaves a string alone exactly when the literal does not
      occur in it anywhere, inside words included. */
  lemma {:induction false} RemoveAllUnchanged(s: string, pat: string)
    requires pat != ""
    ensures RemoveAll(s, pat) == s <==> !Contains(s, pat)
    ensures |RemoveAll(s, pat)| == |s| <==> !Contains(s, pat)
    decreases |s|
  {
    if s == [] {
      assert !Contains(s, pat) by {
        forall i: nat ensures !OccursAt(s, pat, i) { }
      }
    } else if |pat| <= |s| && s[..|pat|] == pat {
      assert OccursAt(s, pat, 0);
    } else {
      RemoveAllUnchanged(s[1..], pat);
      if Contains(s[1..], pat) {
        var i: nat :| i <= |s[1..]| && OccursAt(s[1..], pat, i);
        OccursShift(s, pat, i);
      } else {
        forall i: nat ensures !OccursAt(s, pat, i) {
          if i > 0 {
            OccursShift(s, pat, i - 1);
          }
        }
      }
    }
  }

  /** When the first occurrence of the literal starts right after `a`, the
      deletion keeps `a`, drops that occurrence and goes on with the rest. */
  lemma {:induction false} RemoveAllFirst(a: string, pat: string, b: string)
    requires pat != ""
    requires !Contains(a + pat[..|pat| - 1], pat)
    ensures RemoveAll(a + pat + b, pat) == a + RemoveAll(b, pat)
    decreases |a|
  {
    var s := a + pat + b;
    if a == [] {
      assert s == pat + b;
      assert s[..|pat|] == pat;
      assert s[|pat|..] == b;
    } else {
      var w := a + pat[..|pat| - 1];
      if s[..|pat|] == pat {
        assert w[..|pat|] == s[..|pat|];
        assert OccursAt(w, pat, 0);
      }
      assert s[1..] == a[1..] + pat + b;
      var w' := a[1..] + pat[..|pat| - 1];
      assert w' == w[1..];
      if Contains(w', pat) {
        var i: nat :| i <= |w'| && OccursAt(w', pat, i);
        OccursShift(w, pat, i);
      }
      RemoveAllFirst(a[1..], pat, b);
      assert s[0] == a[0];
      assert [a[0]] + a[1..] == a;
    }
  }

  // ---------------------------------------------------------------------
  // Worked titles

  /** The literal cannot occur where its `j`-th letter never appears. */
  lemma MissingLetter(s: string, pat: string, j: nat)
    requires j < |pat| <= |s|
    requires pat[j] !in s[j..|s| - |pat| + j + 1]
    ensures !Contains(s, pat)
  {
    forall i: nat ensures !OccursAt(s, pat, i) {
      if i + |pat| <= |s| {
        assert s[i..i + |pat|][j] == s[j..|s| - |pat| + j + 1][i];
      }
    }
  }

  lemma StripExample()
    ensures StripSavePrefix("Save 50% on Example Game on Steam") == "Example Game on Steam"
  {
    var body := "Example Game on Steam";
    assert Repeat("on", 1) == "on";
    assert SavePrefixText("50", "%", 1) == "Save 50% on ";
    assert "Save 50% on " + body == "Save 50% on Example Game on Steam";
    StripRemovesPrefix("50", "%", 1, body);
  }

  lemma RemoveExample()
    ensures RemoveAll("Example Game on Steam", Steam) == "Example Game "
  {
    var a := "Example Game ";
    assert (a + Steam[..7])[0..13] == a;
    MissingLetter(a + Steam[..7], Steam, 0);
    RemoveAllFirst(a, Steam, "");
    assert a + Steam + "" == "Example Game on Steam";
  }

  /** The documented example: a sale title loses its "Save 50% on " prefix
      and its "on Steam" suffix; the space before the suffix stays. */
  lemma SaleTitleExample()
    ensures GameName(Some("Save 50% on Example Game on Steam")) == Some("Example Game ")
  {
    StripExample();
    RemoveExample();
  }

  lemma NoPercentStripExample()
    ensures StripSavePrefix("Save on Foo Bar on Steam") == "Save on Foo Bar on Steam"
  {
    var title := "Save on Foo Bar on Steam";
    assert title[..5] == "Save ";
    assert DigitSpan(title[5..]) == 0;
    assert PercentSpan(title[5..][0..]) == 0;
  }

  lemma NoPercentRemoveExample()
    ensures RemoveAll("Save on Foo Bar on Steam", Steam) == "Save on Foo Bar "
  {
    var a := "Save on Foo Bar ";
    assert (a + Steam[..7])[3..16] == a[3..];
    MissingLetter(a + Steam[..7], Steam, 3);
    RemoveAllFirst(a, Steam, "");
    assert a + Steam + "" == "Save on Foo Bar on Steam";
  }

  /** A title whose "Save" is not followed by a percentage keeps its prefix:
      the pattern asks for a space after the (empty) digit and percent runs
      as well as before them, so "Save on " is not matched. */
  lemma SaveWithoutPercentKept()
    ensures GameName(Some("Save on Foo Bar on Steam")) == Some("Save on Foo Bar ")
  {
    NoPercentStripExample();
    NoPercentRemoveExample();
  }

  /** `str.replace` makes one pass: deleting an occurrence can join the
      text around it into a new occurrence, and that one stays. */
  lemma RemoveAllSinglePass()
    ensures RemoveAll("on on SteamSteam", Steam) == Steam
    ensures Contains(RemoveAll("on on SteamSteam", Steam), Steam)
  {
    var a, b := "on ", "Steam";
    assert (a + Steam[..7])[7..10] == "tea";
    MissingLetter(a + Steam[..7], Steam, 7);
    RemoveAllFirst(a, Steam, b);
    assert a + Steam + b == "on on SteamSteam";
    assert !Contains(b, Steam) by {
      forall i: nat ensures !OccursAt(b, Steam, i) { }
    }
    RemoveAllUnchanged(b, Steam);
    assert a + b == Steam;
    assert OccursAt(Steam, Steam, 0);
  }
}
