/**
  `MenuData`: the fixed menu, an insertion-ordered map from category name to that
  category's items, and `flattenMenu`, which lists every item in map order.
*/
module MenuData {
  import opened JavaLang
  import opened ModelTypes

  /** A `LinkedHashMap<String, List<MenuItem>>`: categories in insertion order with their items. */
  type Menu = seq<(Text, seq<MenuItem>)>

  /** No two items share a code. */
  predicate UniqueCodes(items: seq<MenuItem>)
  {
    forall i, j | 0 <= i < j < |items| :: items[i].code != items[j].code
  }

  /** The category names, in map order. */
  function Categories(menu: Menu): (names: seq<Text>)
    ensures |names| == |menu|
    ensures forall i | 0 <= i < |menu| :: names[i] == menu[i].0
  {
    seq(|menu|, i requires 0 <= i < |menu| => menu[i].0)
  }

  function Item(code: string, name: string, category: string, description: string): MenuItem
    requires IsBmp(code) && IsBmp(name) && IsBmp(category) && IsBmp(description)
  {
    MenuItem(Lit(code), Lit(name), Lit(category), Lit(description))
  }

  const SGN_01: MenuItem := Item("SGN-01", "Chef's Tasting Platter", "Signatures", "Seasonal bites with artisanal dips")
  const SGN_02: MenuItem := Item("SGN-02", "Truffle Mushroom Risotto", "Signatures", "Creamy Arborio rice with wild mushrooms")
  const SGN_03: MenuItem := Item("SGN-03", "Citrus Glazed Salmon", "Signatures", "Pan-seared salmon with citrus glaze")
  const SMP_01: MenuItem := Item("SMP-01", "Crispy Calamari", "Small Plates", "Served with harissa aioli")
  const SMP_02: MenuItem := Item("SMP-02", "Avocado Bruschetta", "Small Plates", "Heirloom tomatoes & basil oil")
  const SMP_03: MenuItem := Item("SMP-03", "Spiced Cauliflower Bites", "Small Plates", "Tamarind glaze & mint yogurt")
  const MNS_01: MenuItem := Item("MNS-01", "Charcoal BBQ Burger", "Mains", "Smoked cheddar, caramelized onions")
  const MNS_02: MenuItem := Item("MNS-02", "Thai Coconut Curry", "Mains", "Vegetables, jasmine rice, toasted peanuts")
  const MNS_03: MenuItem := Item("MNS-03", "Garlic Butter Steak", "Mains", "Grilled sirloin, herb butter")
  const GRN_01: MenuItem := Item("GRN-01", "Harvest Bowl", "Greens", "Quinoa, roasted veggies, tahini drizzle")
  const GRN_02: MenuItem := Item("GRN-02", "Mediterranean Salad", "Greens", "Feta, olives, sun-dried tomatoes")
  const DES_01: MenuItem := Item("DES-01", "Molten Lava Cake", "Desserts", "Dark chocolate, vanilla gelato")
  const DES_02: MenuItem := Item("DES-02", "Coconut Panna Cotta", "Desserts", "Mango coulis & toasted coconut")
  const BEV_01: MenuItem := Item("BEV-01", "Cold Brew Tonic", "Beverages", "Citrus, espresso & tonic fizz")
  const BEV_02: MenuItem := Item("BEV-02", "Ginger Lime Spritz", "Beverages", "House-made ginger syrup & lime")
  const BEV_03: MenuItem := Item("BEV-03", "Herbal Iced Tea", "Beverages", "Lemongrass & mint")

  const SIGNATURES: seq<MenuItem> := [SGN_01, SGN_02, SGN_03]
  const SMALL_PLATES: seq<MenuItem> := [SMP_01, SMP_02, SMP_03]
  const MAINS: seq<MenuItem> := [MNS_01, MNS_02, MNS_03]
  const GREENS: seq<MenuItem> := [GRN_01, GRN_02]
  const DESSERTS: seq<MenuItem> := [DES_01, DES_02]
  const BEVERAGES: seq<MenuItem> := [BEV_01, BEV_02, BEV_03]

  /** `loadMenu()`: six categories, put in this order. */
  function LoadMenu(): Menu
  {
    [
      (Lit("Signatures"), SIGNATURES),
      (Lit("Small Plates"), SMALL_PLATES),
      (Lit("Mains"), MAINS),
      (Lit("Greens"), GREENS),
      (Lit("Desserts"), DESSERTS),
      (Lit("Beverages"), BEVERAGES)
    ]
  }

  /** The items of every category, in map order: what `flattenMenu` builds. */
  function Flatten(menu: Menu): seq<MenuItem>
  {
    if menu == [] then [] else Flatten(menu[..|menu| - 1]) + menu[|menu| - 1].1
  }

  /** `flattenMenu(menu)`: `addAll` of each category's list, in map order. */
  method FlattenMenu(menu: Menu) returns (combined: seq<MenuItem>)
    ensures combined == Flatten(menu)
  {
    combined := [];
    for i := 0 to |menu|
      invariant combined == Flatten(menu[..i])
    {
      assert menu[..i + 1][..i] == menu[..i];
      combined := combined + menu[i].1;
    }
    assert menu[..|menu|] == menu;
  }

  /** The sum of the category sizes. */
  function TotalSize(menu: Menu): nat
  {
    if menu == [] then 0 else TotalSize(menu[..|menu| - 1]) + |menu[|menu| - 1].1|
  }

  /** Flattening a map made of two parts lists the first part's items, then the second's. */
  lemma {:induction false} FlattenAppend(a: Menu, b: Menu)
    ensures Flatten(a + b) == Flatten(a) + Flatten(b)
    decreases |b|
  {
    if b == [] {
      assert a + b == a;
    } else {
      var c := a + b;
      assert c[..|c| - 1] == a + b[..|b| - 1];
      assert c[|c| - 1] == b[|b| - 1];
      FlattenAppend(a, b[..|b| - 1]);
      var fa, fi, last := Flatten(a), Flatten(b[..|b| - 1]), b[|b| - 1].1;
      assert Flatten(c) == fa + fi + last;
      assert Flatten(b) == fi + last;
      assert fa + fi + last == fa + (fi + last);
    }
  }

  /** `flattenMenu` loses and adds nothing: its length is the sum of the category sizes. */
  lemma {:induction false} FlattenSize(menu: Menu)
    ensures |Flatten(menu)| == TotalSize(menu)
    decreases |menu|
  {
    if menu != [] {
      FlattenSize(menu[..|menu| - 1]);
    }
  }

  /** An item is in the flattened list exactly when some category lists it. */
  lemma {:induction false} FlattenMembers(menu: Menu, x: MenuItem)
    ensures x in Flatten(menu) <==> exists i | 0 <= i < |menu| :: x in menu[i].1
    decreases |menu|
  {
    if menu != [] {
      var init := menu[..|menu| - 1];
      FlattenMembers(init, x);
      if x in Flatten(init) {
        var i :| 0 <= i < |init| && x in init[i].1;
        assert menu[i] == init[i];
      } else if exists i | 0 <= i < |menu| :: x in menu[i].1 {
        var i :| 0 <= i < |menu| && x in menu[i].1;
      }
    }
  }

  /** The whole menu, in order. */
  lemma MenuFlattened()
    ensures Flatten(LoadMenu()) == SIGNATURES + SMALL_PLATES + MAINS + GREENS + DESSERTS + BEVERAGES
  {
    var menu: Menu := LoadMenu();
    assert Flatten(menu[..1]) == SIGNATURES by {
      assert |menu[..1][..0]| == 0;
    }
    assert Flatten(menu[..2]) == Flatten(menu[..1]) + SMALL_PLATES by {
      assert menu[..2][..1] == menu[..1];
    }
    assert Flatten(menu[..3]) == Flatten(menu[..2]) + MAINS by {
      assert menu[..3][..2] == menu[..2];
    }
    assert Flatten(menu[..4]) == Flatten(menu[..3]) + GREENS by {
      assert menu[..4][..3] == menu[..3];
    }
    assert Flatten(menu[..5]) == Flatten(menu[..4]) + DESSERTS by {
      assert menu[..5][..4] == menu[..4];
    }
    assert Flatten(menu) == Flatten(menu[..5]) + BEVERAGES by {
      assert menu[..5] == menu[..|menu| - 1];
    }
  }

  /**
    A number that tells the menu's codes apart and rises along the menu: first letter
    descending, then second letter and last digit ascending.
  */
  function CodeKey(code: Text): int
  {
    if |code| < 6 then -1
    else (0x1_0000 - code[0] as int) * 0x1_0000_0000 + code[1] as int * 0x1_0000 + code[5] as int
  }

  /** Each item's key is below the next one's. */
  predicate KeysAscend(items: seq<MenuItem>)
  {
    forall i | 0 <= i < |items| - 1 :: CodeKey(items[i].code) < CodeKey(items[i + 1].code)
  }

  /** Keys that rise from each item to the next rise from any item to any later one. */
  lemma {:induction false} KeysRise(items: seq<MenuItem>, i: nat, j: nat)
    requires KeysAscend(items) && i < j < |items|
    ensures CodeKey(items[i].code) < CodeKey(items[j].code)
    decreases j - i
  {
    if i + 1 < j {
      KeysRise(items, i + 1, j);
    }
  }

  /** Two runs of rising keys, the second starting above the end of the first, make one. */
  lemma KeysAscendAppend(a: seq<MenuItem>, b: seq<MenuItem>)
    requires KeysAscend(a) && KeysAscend(b) && a != [] && b != []
    requires CodeKey(a[|a| - 1].code) < CodeKey(b[0].code)
    ensures KeysAscend(a + b)
  {
    forall i | 0 <= i < |a + b| - 1
      ensures CodeKey((a + b)[i].code) < CodeKey((a + b)[i + 1].code)
    {
      if i < |a| - 1 {
        assert (a + b)[i] == a[i] && (a + b)[i + 1] == a[i + 1];
      } else if i == |a| - 1 {
        assert (a + b)[i] == a[i] && (a + b)[i + 1] == b[0];
      } else {
        assert (a + b)[i] == b[i - |a|] && (a + b)[i + 1] == b[i - |a| + 1];
      }
    }
  }

  /** Rising keys mean different codes. */
  lemma AscendingUnique(items: seq<MenuItem>)
    requires KeysAscend(items)
    ensures UniqueCodes(items)
  {
    forall i, j | 0 <= i < j < |items|
      ensures items[i].code != items[j].code
    {
      KeysRise(items, i, j);
    }
  }

  /** The keys of the menu's codes rise in menu order. */
  lemma MenuCodeKeys()
    ensures CodeKey(SGN_01.code) < CodeKey(SGN_02.code) < CodeKey(SGN_03.code) < CodeKey(SMP_01.code)
    ensures CodeKey(SMP_01.code) < CodeKey(SMP_02.code) < CodeKey(SMP_03.code) < CodeKey(MNS_01.code)
    ensures CodeKey(MNS_01.code) < CodeKey(MNS_02.code) < CodeKey(MNS_03.code) < CodeKey(GRN_01.code)
    ensures CodeKey(GRN_01.code) < CodeKey(GRN_02.code) < CodeKey(DES_01.code) < CodeKey(DES_02.code)
    ensures CodeKey(DES_02.code) < CodeKey(BEV_01.code) < CodeKey(BEV_02.code) < CodeKey(BEV_03.code)
  {
  }

  /** Every item of the menu, in map order. */
  lemma MenuItems()
    ensures Flatten(LoadMenu()) == [
      SGN_01, SGN_02, SGN_03, SMP_01, SMP_02, SMP_03, MNS_01, MNS_02,
      MNS_03, GRN_01, GRN_02, DES_01, DES_02, BEV_01, BEV_02, BEV_03]
  {
    MenuFlattened();
  }

  /** `loadMenu` has 16 items with 16 different codes. */
  lemma MenuCodesDistinct()
    ensures |Flatten(LoadMenu())| == 16 && UniqueCodes(Flatten(LoadMenu()))
  {
    MenuFlattened();
    MenuCodeKeys();
    var a := SIGNATURES + SMALL_PLATES;
    KeysAscendAppend(SIGNATURES, SMALL_PLATES);
    KeysAscendAppend(a, MAINS);
    KeysAscendAppend(a + MAINS, GREENS);
    KeysAscendAppend(a + MAINS + GREENS, DESSERTS);
    KeysAscendAppend(a + MAINS + GREENS + DESSERTS, BEVERAGES);
    AscendingUnique(Flatten(LoadMenu()));
  }

  /** `loadMenu` has exactly these six categories, in this order. */
  lemma MenuCategories()
    ensures Categories(LoadMenu()) == [
      Lit("Signatures"), Lit("Small Plates"), Lit("Mains"),
      Lit("Greens"), Lit("Desserts"), Lit("Beverages")]
  {
  }

  /** Every item's category is the name it is filed under, and every category has items. */
  lemma MenuFiledByCategory()
    ensures forall i | 0 <= i < |LoadMenu()| :: |LoadMenu()[i].1| > 0
    ensures forall i, x | 0 <= i < |LoadMenu()| && x in LoadMenu()[i].1 :: x.category == LoadMenu()[i].0
  {
  }
}
