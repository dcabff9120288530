/** The page numbers `Movie.__getPageIndexes` reads from the navigation
    bar of the first listing page. The bar is given as the stripped
    strings of each of its `td` cells, or `None` when the page has no
    navigation bar. */
module Pages {
  import opened Wrappers
  import opened Text

  /** The values of the all-digit labels among `texts`, in order. */
  function Numbers(texts: seq<string>): seq<int> {
    if |texts| == 0 then []
    else
      var t := texts[|texts| - 1];
      Numbers(texts[..|texts| - 1]) + (if IsAllDigits(t) then [DecimalValue(t) as int] else [])
  }

  /** The values of the all-digit labels of all cells, cell by cell. */
  function CellNumbers(cells: seq<seq<string>>): seq<int> {
    if |cells| == 0 then [] else CellNumbers(cells[..|cells| - 1]) + Numbers(cells[|cells| - 1])
  }

  /** `xs` without its repeated elements, each kept where it first occurs. */
  function Dedup(xs: seq<int>): seq<int> {
    if |xs| == 0 then []
    else
      var d := Dedup(xs[..|xs| - 1]);
      var x := xs[|xs| - 1];
      if x in d then d else d + [x]
  }

  /** The position of the first `y` in `xs`, or `|xs|` when there is none. */
  function FirstIndex(xs: seq<int>, y: int): nat {
    if |xs| == 0 then 0 else if xs[0] == y then 0 else 1 + FirstIndex(xs[1..], y)
  }

  /** What `__getPageIndexes` returns once the bar has been looked up. */
  function PageIndexes(navbar: Option<seq<seq<string>>>): seq<int> {
    if navbar.None? then [] else Dedup(CellNumbers(navbar.value))
  }

  ghost predicate NoDuplicates(xs: seq<int>) {
    forall i, j :: 0 <= i < j < |xs| ==> xs[i] != xs[j]
  }

  lemma {:induction false} FirstIndexBound(xs: seq<int>, y: int)
    ensures FirstIndex(xs, y) <= |xs|
    ensures y in xs <==> FirstIndex(xs, y) < |xs|
    ensures y in xs ==> xs[FirstIndex(xs, y)] == y
  {
    if |xs| > 0 && xs[0] != y {
      FirstIndexBound(xs[1..], y);
      assert xs == [xs[0]] + xs[1..];
    }
  }

  /** Appending does not move the first occurrence of an element already present. */
  lemma {:induction false} FirstIndexAppend(xs: seq<int>, x: int, y: int)
    requires y in xs
    ensures FirstIndex(xs + [x], y) == FirstIndex(xs, y)
  {
    if xs[0] != y {
      assert (xs + [x])[1..] == xs[1..] + [x];
      FirstIndexAppend(xs[1..], x, y);
    }
  }

  lemma {:induction false} FirstIndexNew(xs: seq<int>, x: int)
    requires x !in xs
    ensures FirstIndex(xs + [x], x) == |xs|
  {
    if |xs| > 0 {
      assert (xs + [x])[1..] == xs[1..] + [x];
      FirstIndexNew(xs[1..], x);
    }
  }

  /** `Dedup` keeps exactly the elements of its input, each once, ordered by
      where each first occurs. */
  lemma {:induction false} DedupSpec(xs: seq<int>)
    ensures forall x :: x in Dedup(xs) <==> x in xs
    ensures NoDuplicates(Dedup(xs))
    ensures forall i, j :: 0 <= i < j < |Dedup(xs)| ==> FirstIndex(xs, Dedup(xs)[i]) < FirstIndex(xs, Dedup(xs)[j])
  {
    if |xs| > 0 {
      var init := xs[..|xs| - 1];
      var x := xs[|xs| - 1];
      var d := Dedup(init);
      DedupSpec(init);
      assert xs == init + [x];
      forall y | y in init
        ensures FirstIndex(xs, y) == FirstIndex(init, y) < |init|
      {
        FirstIndexAppend(init, x, y);
        FirstIndexBound(init, y);
      }
      if x !in d {
        FirstIndexNew(init, x);
        forall i | 0 <= i < |d|
          ensures d[i] in init
        {
          assert d[i] in d;
        }
      }
    }
  }

  /** A label contributes its value exactly when it is all digits. */
  lemma {:induction false} NumbersSpec(texts: seq<string>)
    ensures forall x :: x in Numbers(texts) <==>
      exists k :: 0 <= k < |texts| && IsAllDigits(texts[k]) && DecimalValue(texts[k]) == x
  {
    if |texts| > 0 {
      NumbersSpec(texts[..|texts| - 1]);
      forall k | 0 <= k < |texts| - 1
        ensures texts[..|texts| - 1][k] == texts[k] {}
    }
  }

  lemma {:induction false} CellNumbersSpec(cells: seq<seq<string>>)
    ensures forall x :: x in CellNumbers(cells) <==>
      exists c, k :: 0 <= c < |cells| && 0 <= k < |cells[c]| && IsAllDigits(cells[c][k]) && DecimalValue(cells[c][k]) == x
  {
    if |cells| > 0 {
      var init := cells[..|cells| - 1];
      CellNumbersSpec(init);
      NumbersSpec(cells[|cells| - 1]);
      forall c | 0 <= c < |cells| - 1
        ensures init[c] == cells[c] {}
      forall x | x in CellNumbers(cells)
        ensures exists c, k :: 0 <= c < |cells| && 0 <= k < |cells[c]| && IsAllDigits(cells[c][k]) && DecimalValue(cells[c][k]) == x
      {
        if x in CellNumbers(init) {
          var c, k :| 0 <= c < |init| && 0 <= k < |init[c]| && IsAllDigits(init[c][k]) && DecimalValue(init[c][k]) == x;
          assert cells[c] == init[c];
        }
      }
      forall x, c, k | 0 <= c < |cells| && 0 <= k < |cells[c]| && IsAllDigits(cells[c][k]) && DecimalValue(cells[c][k]) == x
        ensures x in CellNumbers(cells)
      {
        if c < |cells| - 1 {
          assert init[c][k] == cells[c][k];
        }
      }
    }
  }

  /** The page list is empty without a navigation bar; otherwise it holds
      exactly the values of the all-digit labels (so never a label such as
      "next"), each once, in the order the labels first show them. */
  lemma PageIndexesSpec(navbar: Option<seq<seq<string>>>)
    ensures navbar.None? ==> PageIndexes(navbar) == []
    ensures navbar.Some? ==> forall x :: x in PageIndexes(navbar) <==>
      exists c, k :: 0 <= c < |navbar.value| && 0 <= k < |navbar.value[c]|
        && IsAllDigits(navbar.value[c][k]) && DecimalValue(navbar.value[c][k]) == x
    ensures NoDuplicates(PageIndexes(navbar))
    ensures navbar.Some? ==> forall i, j :: 0 <= i < j < |PageIndexes(navbar)| ==>
      FirstIndex(CellNumbers(navbar.value), PageIndexes(navbar)[i]) < FirstIndex(CellNumbers(navbar.value), PageIndexes(navbar)[j])
  {
    if navbar.Some? {
      DedupSpec(CellNumbers(navbar.value));
      CellNumbersSpec(navbar.value);
    }
  }

  lemma NumbersExample()
    ensures Numbers(["1", "2", "3", "next"]) == [1, 2, 3]
  {
    var labels := ["1", "2", "3", "next"];
    assert !IsAllDigits("next") by {
      assert !IsDigit("next"[0]);
    }
    assert labels[..3] == ["1", "2", "3"];
    assert Numbers(["1", "2", "3"]) == [1, 2, 3] by {
      assert ["1", "2", "3"][..2] == ["1", "2"];
      assert DecimalValue("3") == 3;
      assert Numbers(["1", "2"]) == [1, 2] by {
        assert ["1", "2"][..1] == ["1"];
        assert DecimalValue("2") == 2;
        assert Numbers(["1"]) == [1] by {
          assert ["1"][..0] == [];
          assert DecimalValue("1") == 1;
        }
      }
    }
  }

  lemma DedupExample()
    ensures Dedup([1, 2, 3]) == [1, 2, 3]
  {
    assert [1, 2, 3][..2] == [1, 2] && [1, 2][..1] == [1] && [1][..0] == [];
  }

  /** A bar with the labels `1`, `2`, `3` and `next` gives pages 1, 2 and 3. */
  lemma PageIndexesExample()
    ensures PageIndexes(Some([["1", "2", "3", "next"]])) == [1, 2, 3]
  {
    var labels := ["1", "2", "3", "next"];
    NumbersExample();
    DedupExample();
    assert [labels][..0] == [];
    assert CellNumbers([labels]) == [1, 2, 3];
  }

  /** The loop of `__getPageIndexes`: every stripped string of every cell,
      kept when it is all digits and its value is not yet in the list. */
  method CollectPageIndexes(navbar: Option<seq<seq<string>>>) returns (pages: seq<int>)
    ensures pages == PageIndexes(navbar)
  {
    pages := [];
    if navbar.None? {
      return;
    }
    var cells := navbar.value;
    for c := 0 to |cells|
      invariant pages == Dedup(CellNumbers(cells[..c]))
    {
      var texts := cells[c];
      assert CellNumbers(cells[..c]) + Numbers(texts[..0]) == CellNumbers(cells[..c]);
      for k := 0 to |texts|
        invariant pages == Dedup(CellNumbers(cells[..c]) + Numbers(texts[..k]))
      {
        var text := texts[k];
        ghost var seen := CellNumbers(cells[..c]) + Numbers(texts[..k]);
        ghost var next := CellNumbers(cells[..c]) + Numbers(texts[..k + 1]);
        assert texts[..k + 1][..k] == texts[..k];
        if IsAllDigits(text) {
          var value := DecimalValue(text) as int;
          assert next == seen + [value];
          assert next[..|seen|] == seen;
          if value !in pages {
            pages := pages + [value];
          }
        } else {
          assert next == seen;
        }
      }
      assert texts[..|texts|] == texts;
      assert cells[..c + 1][..c] == cells[..c];
    }
    assert cells[..|cells|] == cells;
  }
}
