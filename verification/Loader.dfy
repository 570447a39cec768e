/** The loader: the listed pages made the guest's own, the measured ones copied in. */
module Loader {
  import opened Layout
  import opened Physical
  import opened Placement
  import opened Pages
  import opened Partition
  import opened Guest
  import opened Launch

  predicate Listed(list: seq<LaunchPage>, g: int) {
    list != [] && (list[|list| - 1].gpa == g || Listed(list[..|list| - 1], g))
  }

  /** The listed pages are the guest's from the start; nothing else is. */
  function LoadedPages(list: seq<LaunchPage>): PageTable {
    q => if Listed(list, q * PAGE) then Accepted else Unaccepted
  }

  /** The measured pages copied in, in list order. */
  function LoadedMemory(list: seq<LaunchPage>, blank: Memory): Memory {
    if list == [] then blank
    else
      var p, rest := list[|list| - 1], LoadedMemory(list[..|list| - 1], blank);
      a => if p.kind == Normal && p.gpa <= a < p.gpa + |p.data| then p.data[a - p.gpa] else rest(a)
  }

  lemma {:induction false} ListedIsImported(list: seq<LaunchPage>, g: int)
    ensures Listed(list, g) <==> Imported(list, g)
  {
    if list != [] {
      var init := list[..|list| - 1];
      ListedIsImported(init, g);
      if k :| 0 <= k < |list| && list[k].gpa == g {
        assert k < |list| - 1 ==> init[k].gpa == g;
      }
    }
  }

  lemma {:induction false} LoadedByte(list: seq<LaunchPage>, blank: Memory, k: nat, i: nat)
    requires Ascending(list) && (forall j :: 0 <= j < |list| ==> |list[j].data| <= PAGE)
    requires k < |list| && list[k].kind == Normal && i < |list[k].data|
    ensures LoadedMemory(list, blank)(list[k].gpa + i) == list[k].data[i]
  {
    var n := |list| - 1;
    if k < n {
      assert list[k].gpa + PAGE <= list[n].gpa;
      LoadedByte(list[..n], blank, k, i);
    }
  }

  /** Ascending pages never overwrite one another, so a loader leaves each of them in memory. */
  lemma {:induction false} LoaderLoads(list: seq<LaunchPage>, blank: Memory)
    requires Ascending(list) && (forall j :: 0 <= j < |list| ==> |list[j].data| <= PAGE)
    ensures Loaded(LoadedPages(list), LoadedMemory(list, blank), list)
  {
    forall q
      ensures Listed(list, q * PAGE) <==> Imported(list, q * PAGE)
    {
      ListedIsImported(list, q * PAGE);
    }
    forall k, i | 0 <= k < |list| && list[k].kind == Normal && 0 <= i < |list[k].data|
      ensures LoadedMemory(list, blank)(list[k].gpa + i) == list[k].data[i]
    {
      LoadedByte(list, blank, k, i);
    }
  }

  lemma {:induction false} LoaderLoadsMap(placed: seq<Placed>, blank: Memory)
    requires Ascending(LaunchList(placed))
    ensures Loaded(LoadedPages(LaunchList(placed)), LoadedMemory(LaunchList(placed), blank), LaunchList(placed))
  {
    PagesWhole(placed);
    assert forall j :: 0 <= j < |LaunchList(placed)| ==> LaunchList(placed)[j] in LaunchList(placed);
    LoaderLoads(LaunchList(placed), blank);
  }
}
