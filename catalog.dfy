/** The compiled-in portfolio data of src/App.jsx: the gallery items and the
    ordered list of category labels shown as filter buttons. */
module Catalog {

  /** One artwork of the gallery. Items are plain records that are never mutated. */
  datatype Item = Item(
    id: int,
    title: string,
    category: string,
    filename: string,
    description: string,
    featured: bool)

  /** The distinguished label that matches every item. */
  const AllLabel: string := "All"

  const PortfolioItems: seq<Item> := [
    Item(1, "Sidi Saiyed Ni Jaali", "Architecture", "sidi-saiyed.jpg",
      "A handcrafted paper interpretation of the Sidi Saiyed ni Jali, highlighting the detailed latticework and the iconic 'Tree of Life' motif. This work took 21 days of careful carving.",
      true),
    Item(2, "The Maverick's Gaze (Tesla)", "Pop Culture", "tesla-halftone.jpg",
      "A paper-carved halftone portrait of Nikola Tesla. The enigmatic visage emerges from a tapestry of precise cuts, reflecting his ability to perceive the world differently.",
      true),
    Item(3, "Built for Speed (F1 Diorama)", "Pop Culture", "f1-diorama.jpg",
      "Handcrafted F1 podium finish in miniature. Features a racetrack base textured with sandpaper and safety nets made from repurposed cotton bandage.",
      true),
    Item(4, "Digging Into Detail", "Mechanical Models", "excavator.jpg",
      "Komatsu PC200 Hydraulic Excavator. Beyond its detailed appearance, the entire arm mechanism functions just like the real machine, powered by an intricate paper mechanism.",
      true),
    Item(5, "Whispers of Vrindavan", "Sanjhi", "krishna-sanjhi.jpg",
      "Portraying Radha and Krishna in the Sanjhi style. The intricate design captures their eternal love, rendered with delicate balance.",
      false),
    Item(6, "Geometric Grace", "Islamic Geometry", "islamic-geo-1.jpg",
      "Detailed artwork portraying an Islamic geometric pattern called the 9-fold Rosette. A study in patience, balance, and handcrafted detail.",
      false),
    Item(7, "Atal Bridge", "Architecture", "atal-bridge.jpg",
      "A personal tribute to an architectural landmark in Ahmedabad, showcasing how intricate detail can bring grand structures to life on a smaller scale.",
      false),
    Item(8, "Matchbox to Melody", "Miniatures", "guitar-mini.jpg",
      "A miniature guitar carefully made from a matchbox, transforming everyday items into detailed creative expressions.",
      false),
    Item(9, "Ode to Goddess Saraswati", "Sanjhi", "saraswati.jpg",
      "A paper tribute weaving together the precision of paper modeling and the soul of classical music.",
      false),
    Item(10, "Surya Kiran Formation", "Miniatures", "surya-kiran.jpg",
      "Showcasing the breathtaking precision of the IAF Surya Kiran Aerobatic Team flying the BAe Hawk Mk.132.",
      false)
  ]

  const Categories: seq<string> :=
    ["All", "Sanjhi", "Islamic Geometry", "Architecture", "Miniatures", "Mechanical Models", "Pop Culture"]

  /** No value occurs twice (React keys of a list must be unique). */
  predicate Distinct<T(==)>(s: seq<T>) {
    forall i, j :: 0 <= i < j < |s| ==> s[i] != s[j]
  }

  /** No two items share an id (the React key of a gallery card). */
  predicate DistinctIds(items: seq<Item>) {
    forall i, j :: 0 <= i < j < |items| ==> items[i].id != items[j].id
  }

  /** The invariants the static data keeps: the first label is "All", labels and
      item ids are unique, and every item is filed under a label other than "All". */
  predicate WellFormed(items: seq<Item>, cats: seq<string>) {
    && |cats| > 0
    && cats[0] == AllLabel
    && Distinct(cats)
    && DistinctIds(items)
    && forall x :: x in items ==> x.category in cats[1..]
  }

  lemma StaticDataWellFormed()
    ensures WellFormed(PortfolioItems, Categories)
  {
    ItemIdsDistinct();
    CategoriesDistinct();
    ItemsFiled();
  }

  /** Item ids are unique: the k-th item carries id k + 1. */
  lemma ItemIdsDistinct()
    ensures DistinctIds(PortfolioItems)
  {
    var items := PortfolioItems;
    assert items[0].id == 1 && items[1].id == 2 && items[2].id == 3 && items[3].id == 4;
    assert items[4].id == 5 && items[5].id == 6 && items[6].id == 7 && items[7].id == 8;
    assert items[8].id == 9 && items[9].id == 10;
    assert forall k :: 0 <= k < |items| ==> items[k].id == k + 1;
  }

  lemma CategoriesDistinct()
    ensures Distinct(Categories)
  {
    forall i, j | 0 <= i < j < |Categories|
      ensures Categories[i] != Categories[j]
    {
      assert |Categories[i]| != |Categories[j]|;
    }
  }

  lemma ItemsFiled()
    ensures forall x :: x in PortfolioItems ==> x.category in Categories[1..]
  {
    var labels := Categories[1..];
    forall k | 0 <= k < |PortfolioItems|
      ensures PortfolioItems[k].category in labels
    {
    }
  }
}
