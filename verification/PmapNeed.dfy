/** How many frames an address space of given pages takes. */
module PmapNeed {
  import opened Options
  import opened Pmm
  import opened PageTables
  import opened Pmap

  /** The mapped lower-half pages below `n`. */
  ghost function PagesBelow(mem: seq<Page>, root: nat, n: nat): set<nat> {
    set v: nat | v < n && v < LOWER_PAGES && Translate(mem, root, v).Some?
  }

  /** The positions of the level `l - 1` tables that translate the pages of `s`. */
  ghost function Prefixes(s: set<nat>, l: nat): set<nat> {
    set v <- s :: Shift(v, l)
  }

  /** Frames for the pages of `s` and for all the tables they need below the root. */
  ghost function Cost(s: set<nat>): nat {
    |s| + |Prefixes(s, 1)| + |Prefixes(s, 2)| + |Prefixes(s, 3)|
  }

  /** The space has exactly the tables that the pages of `s` need. */
  ghost predicate Lean(mem: seq<Page>, root: nat, s: set<nat>) {
    forall l: nat, p: nat | l < 3 && Lower(l, p) :: TableAt(mem, root, l, p).Some? <==> p in Prefixes(s, l + 1)
  }

  lemma PrefixesAdd(s: set<nat>, v: nat, l: nat)
    ensures Prefixes(s + {v}, l) == Prefixes(s, l) + {Shift(v, l)}
    ensures |Prefixes(s + {v}, l)| == |Prefixes(s, l)| + (if Shift(v, l) in Prefixes(s, l) then 0 else 1)
  {
    assert Prefixes(s + {v}, l) == Prefixes(s, l) + {Shift(v, l)};
  }

  /** In a lean space the tables missing on the way to a new page are the ones its cost adds. */
  lemma MissingIsCost(mem: seq<Page>, root: nat, s: set<nat>, v: nat)
    requires Lean(mem, root, s) && v < LOWER_PAGES && v !in s
    ensures Cost(s + {v}) == Cost(s) + 1 + Missing(mem, root, v, 3)
  {
    hide TableFor, Prefixes, Lean, Missing;
    LevelCost(mem, root, s, v, 0);
    LevelCost(mem, root, s, v, 1);
    LevelCost(mem, root, s, v, 2);
    MissingStep(mem, root, v, 1);
    MissingStep(mem, root, v, 2);
    MissingStep(mem, root, v, 3);
    assert |s + {v}| == |s| + 1;
  }

  lemma LevelCost(mem: seq<Page>, root: nat, s: set<nat>, v: nat, l: nat)
    requires Lean(mem, root, s) && v < LOWER_PAGES && l < 3
    ensures |Prefixes(s + {v}, l + 1)| == |Prefixes(s, l + 1)| + (if TableFor(mem, root, v, l).None? then 1 else 0)
  {
    hide TableAt, Shift, Prefixes, Positions;
    ShiftLower(v, l);
    PrefixesAdd(s, v, l + 1);
  }

  /** Mapping one more page keeps a space lean. */
  lemma LeanStep(mem: seq<Page>, mem': seq<Page>, root: nat, s: set<nat>, v: nat)
    requires Lean(mem, root, s) && PathOnly(mem, mem', root, v) && TableFor(mem', root, v, 0).Some?
    ensures Lean(mem', root, s + {v})
  {
    hide TableAt, Shift, Prefixes, Positions;
    forall l: nat, p: nat | l < 3 && Lower(l, p)
      ensures TableAt(mem', root, l, p).Some? <==> p in Prefixes(s + {v}, l + 1)
    {
      PrefixesAdd(s, v, l + 1);
      PathExists(mem', root, v, l);
    }
  }

  lemma LeanSame(mem: seq<Page>, mem': seq<Page>, root: nat, s: set<nat>)
    requires Lean(mem, root, s) && SameTables(mem, mem', root)
    ensures Lean(mem', root, s)
  {
  }

  lemma ImageGrows(s: set<nat>, s': set<nat>)
    requires s <= s'
    ensures |s| <= |s'|
  {
    assert s' == s + (s' - s);
  }

  lemma CostGrows(s: set<nat>, s': set<nat>)
    requires s <= s'
    ensures Cost(s) <= Cost(s') && (s != s' ==> Cost(s) < Cost(s'))
  {
    forall l: nat ensures |Prefixes(s, l)| <= |Prefixes(s', l)| {
      assert Prefixes(s, l) <= Prefixes(s', l);
      ImageGrows(Prefixes(s, l), Prefixes(s', l));
    }
    assert s' == s + (s' - s);
    if s != s' { assert s' - s != {}; }
  }
}
