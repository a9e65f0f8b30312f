/** The flat model behind a table view: its sections are flattened into one list of
    header, row and footer items with running row numbers, rebuilt only when the
    model is marked dirty. */
module TableView {
  import opened Wrappers

  /** The class name of an item. The table proxy's class-name constants are not part of
      this model, so the default and header classes are kept symbolic and a row's own class
      name is `Named`. A row whose own name equals the header constant is therefore not
      identified with the header class here. */
  datatype ClassName = DefaultClass | HeaderClass | Named(name: string)

  /** A row proxy: its identity and its `className` property (None when unset). */
  datatype Row = Row(id: nat, className: Option<string>)

  /** A section proxy: its identity, header and footer titles, and rows. */
  datatype Section = Section(id: nat, headerTitle: Option<string>, footerTitle: Option<string>, rows: seq<Row>)

  /** The proxy an item shows: a row, or the section whose header or footer it is. */
  datatype ItemSource = RowSource(row: nat) | SectionSource(section: nat)

  /** One entry of the flat view. Header and footer items keep section index and
      in-section index 0. */
  datatype Item = Item(index: int, sectionIndex: int, indexInSection: int,
                       headerText: Option<string>, footerText: Option<string>,
                       className: ClassName, source: ItemSource)

  /** The class name of a row: its own, or the default class when it has none. A row never
      gets the symbolic header class. */
  function ClassNameForRow(row: Row): (r: ClassName)
    ensures r != HeaderClass
    ensures row.className.Some? ==> r == Named(row.className.value)
    ensures row.className.None? ==> r == DefaultClass
  {
    match row.className
    case Some(c) => Named(c)
    case None => DefaultClass
  }

  /** A header or footer item: the header text when given, else the footer text. */
  function ItemForHeader(index: int, section: Section, headerText: Option<string>, footerText: Option<string>): (r: Item)
    ensures r.index == index && r.className == HeaderClass && r.source == SectionSource(section.id)
    ensures r.sectionIndex == 0 && r.indexInSection == 0
    ensures headerText.Some? ==> r.headerText == headerText && r.footerText.None?
    ensures headerText.None? ==> r.headerText.None? && r.footerText == footerText
  {
    if headerText.Some? then Item(index, 0, 0, headerText, None, HeaderClass, SectionSource(section.id))
    else Item(index, 0, 0, None, footerText, HeaderClass, SectionSource(section.id))
  }

  predicate IsRowItem(item: Item) {
    item.source.RowSource?
  }

  /** The item of the row at `indexInSection` of section `sectionIndex`, numbered `index`. */
  function RowItem(row: Row, index: int, sectionIndex: int, indexInSection: int): Item {
    Item(index, sectionIndex, indexInSection, None, None, ClassNameForRow(row), RowSource(row.id))
  }

  /** The items of a section's rows, numbered from `start`. */
  function RowItems(rows: seq<Row>, sectionIndex: nat, start: nat): (r: seq<Item>)
    ensures |r| == |rows|
  {
    seq(|rows|, j requires 0 <= j < |rows| => RowItem(rows[j], start + j, sectionIndex, j))
  }

  function HeaderPart(s: Section, start: nat): seq<Item> {
    if s.headerTitle.Some? then [ItemForHeader(start, s, s.headerTitle, None)] else []
  }

  function FooterPart(s: Section, start: nat): seq<Item> {
    if s.footerTitle.Some? then [ItemForHeader(start, s, None, s.footerTitle)] else []
  }

  /** A section's items: its header if titled, its rows, its footer if titled. */
  function SectionItems(s: Section, sectionIndex: nat, start: nat): seq<Item> {
    HeaderPart(s, start) + RowItems(s.rows, sectionIndex, start) + FooterPart(s, start + |s.rows|)
  }

  function TotalRows(sections: seq<Section>): nat {
    if |sections| == 0 then 0
    else TotalRows(sections[..|sections| - 1]) + |sections[|sections| - 1].rows|
  }

  function Headers(sections: seq<Section>): nat {
    if |sections| == 0 then 0
    else Headers(sections[..|sections| - 1]) + (if sections[|sections| - 1].headerTitle.Some? then 1 else 0)
  }

  function Footers(sections: seq<Section>): nat {
    if |sections| == 0 then 0
    else Footers(sections[..|sections| - 1]) + (if sections[|sections| - 1].footerTitle.Some? then 1 else 0)
  }

  /** The flat view of the sections, section by section. */
  function Flatten(sections: seq<Section>): seq<Item> {
    if |sections| == 0 then []
    else
      var init := sections[..|sections| - 1];
      Flatten(init) + SectionItems(sections[|sections| - 1], |init|, TotalRows(init))
  }

  /** The number of row items. */
  function CountRows(items: seq<Item>): nat {
    if |items| == 0 then 0
    else CountRows(items[..|items| - 1]) + (if IsRowItem(items[|items| - 1]) then 1 else 0)
  }

  // ---------------------------------------------------------------------------
  // Properties of the flat view

  lemma {:induction false} CountRowsAppend(a: seq<Item>, b: seq<Item>)
    ensures CountRows(a + b) == CountRows(a) + CountRows(b)
    decreases |b|
  {
    if |b| > 0 {
      assert (a + b)[..|a + b| - 1] == a + b[..|b| - 1];
      CountRowsAppend(a, b[..|b| - 1]);
    } else {
      assert a + b == a;
    }
  }

  lemma {:induction false} CountRowsOfRowItems(rows: seq<Row>, sectionIndex: nat, start: nat)
    ensures CountRows(RowItems(rows, sectionIndex, start)) == |rows|
    decreases |rows|
  {
    if |rows| > 0 {
      var items := RowItems(rows, sectionIndex, start);
      assert items[..|items| - 1] == RowItems(rows[..|rows| - 1], sectionIndex, start);
      CountRowsOfRowItems(rows[..|rows| - 1], sectionIndex, start);
    }
  }

  /** Each item is numbered `start` plus the row items before it. */
  predicate IndexCountsRows(items: seq<Item>, start: int) {
    forall p :: 0 <= p < |items| ==> items[p].index == start + CountRows(items[..p])
  }

  /** Numbering that counts rows carries over a concatenation. */
  lemma IndexCountsRowsAppend(a: seq<Item>, b: seq<Item>, start: int)
    requires IndexCountsRows(a, start) && IndexCountsRows(b, start + CountRows(a))
    ensures IndexCountsRows(a + b, start)
  {
    forall p | 0 <= p < |a + b|
      ensures (a + b)[p].index == start + CountRows((a + b)[..p])
    {
      if p < |a| {
        assert (a + b)[..p] == a[..p];
      } else {
        assert (a + b)[..p] == a + b[..p - |a|];
        CountRowsAppend(a, b[..p - |a|]);
      }
    }
  }

  lemma RowItemsCountRows(rows: seq<Row>, sectionIndex: nat, start: nat)
    ensures IndexCountsRows(RowItems(rows, sectionIndex, start), start)
  {
    var rs := RowItems(rows, sectionIndex, start);
    forall j | 0 <= j < |rs|
      ensures rs[j].index == start + CountRows(rs[..j])
    {
      assert rs[..j] == RowItems(rows[..j], sectionIndex, start);
      CountRowsOfRowItems(rows[..j], sectionIndex, start);
    }
  }

  /** A header or footer part holds no row and is numbered `start`. */
  lemma TitlePartCountsRows(part: seq<Item>, start: int)
    requires |part| <= 1 && forall p :: 0 <= p < |part| ==> !IsRowItem(part[p]) && part[p].index == start
    ensures CountRows(part) == 0 && IndexCountsRows(part, start)
  {
    if |part| == 1 {
      assert part[..0] == [];
    }
  }

  /** A section holds as many row items as it has rows. */
  lemma SectionCountsRows(s: Section, sectionIndex: nat, start: nat)
    ensures CountRows(SectionItems(s, sectionIndex, start)) == |s.rows|
  {
    var h := HeaderPart(s, start);
    var rs := RowItems(s.rows, sectionIndex, start);
    var f := FooterPart(s, start + |s.rows|);
    TitlePartCountsRows(h, start);
    TitlePartCountsRows(f, start + |s.rows|);
    CountRowsOfRowItems(s.rows, sectionIndex, start);
    CountRowsAppend(h, rs);
    CountRowsAppend(h + rs, f);
  }

  /** A section's header and row items hold its rows and are numbered by the rows before them. */
  lemma HeaderAndRowsCountRows(s: Section, sectionIndex: nat, start: nat)
    ensures CountRows(HeaderPart(s, start) + RowItems(s.rows, sectionIndex, start)) == |s.rows|
    ensures IndexCountsRows(HeaderPart(s, start) + RowItems(s.rows, sectionIndex, start), start)
  {
    var h := HeaderPart(s, start);
    var rs := RowItems(s.rows, sectionIndex, start);
    TitlePartCountsRows(h, start);
    CountRowsOfRowItems(s.rows, sectionIndex, start);
    CountRowsAppend(h, rs);
    RowItemsCountRows(s.rows, sectionIndex, start);
    IndexCountsRowsAppend(h, rs, start);
  }

  /** Each item of a section is numbered by `start` plus the rows before it in the section. */
  lemma SectionIndexCountsRows(s: Section, sectionIndex: nat, start: nat)
    ensures IndexCountsRows(SectionItems(s, sectionIndex, start), start)
  {
    var hr := HeaderPart(s, start) + RowItems(s.rows, sectionIndex, start);
    var f := FooterPart(s, start + |s.rows|);
    assert IndexCountsRows(hr + f, start) by {
      HeaderAndRowsCountRows(s, sectionIndex, start);
      FooterPartCountsRows(s, start + |s.rows|);
      IndexCountsRowsAppend(hr, f, start);
    }
    assert SectionItems(s, sectionIndex, start) == hr + f;
  }

  /** A footer part holds no row and is numbered `start`. */
  lemma FooterPartCountsRows(s: Section, start: nat)
    ensures CountRows(FooterPart(s, start)) == 0 && IndexCountsRows(FooterPart(s, start), start)
  {
    TitlePartCountsRows(FooterPart(s, start), start);
  }

  /** Every item's `index` is the number of row items before it, so rows are numbered
      0, 1, 2, ... across the whole table and a header or footer carries the number of
      rows before it. */
  lemma {:induction false} FlattenIndexCountsRows(sections: seq<Section>)
    ensures CountRows(Flatten(sections)) == TotalRows(sections)
    ensures IndexCountsRows(Flatten(sections), 0)
  {
    if |sections| > 0 {
      var init := sections[..|sections| - 1];
      var s := sections[|sections| - 1];
      FlattenIndexCountsRows(init);
      var a := Flatten(init);
      var b := SectionItems(s, |init|, TotalRows(init));
      SectionCountsRows(s, |init|, TotalRows(init));
      SectionIndexCountsRows(s, |init|, TotalRows(init));
      CountRowsAppend(a, b);
      IndexCountsRowsAppend(a, b, 0);
    }
  }

  /** The view holds one item per row plus one per header title and one per footer title. */
  lemma {:induction false} FlattenLength(sections: seq<Section>)
    ensures |Flatten(sections)| == TotalRows(sections) + Headers(sections) + Footers(sections)
  {
    if |sections| > 0 {
      FlattenLength(sections[..|sections| - 1]);
    }
  }

  /** The shape of every item of the view: a row item names the section it comes from and its
      position there; any other item is a header or footer with exactly one of the two texts. */
  predicate WellPlaced(sections: seq<Section>, item: Item) {
    if IsRowItem(item) then
      0 <= item.sectionIndex < |sections| &&
      0 <= item.indexInSection < |sections[item.sectionIndex].rows| &&
      sections[item.sectionIndex].rows[item.indexInSection].id == item.source.row &&
      item.className == ClassNameForRow(sections[item.sectionIndex].rows[item.indexInSection]) &&
      item.headerText.None? && item.footerText.None?
    else
      item.className == HeaderClass && (item.headerText.Some? != item.footerText.Some?)
  }

  lemma WellPlacedExtend(sections: seq<Section>, item: Item, more: Section)
    requires WellPlaced(sections, item)
    ensures WellPlaced(sections + [more], item)
  {
    if IsRowItem(item) {
      assert (sections + [more])[item.sectionIndex] == sections[item.sectionIndex];
    }
  }

  /** Row items carry their section's position and their position within it (restarting
      at 0 in each section); header and footer items have the header class and one text. */
  lemma {:induction false} FlattenItemsWellPlaced(sections: seq<Section>)
    ensures forall p :: 0 <= p < |Flatten(sections)| ==> WellPlaced(sections, Flatten(sections)[p])
  {
    if |sections| > 0 {
      var init := sections[..|sections| - 1];
      var s := sections[|sections| - 1];
      assert sections == init + [s];
      FlattenItemsWellPlaced(init);
      var a := Flatten(init);
      var b := SectionItems(s, |init|, TotalRows(init));
      var rs := RowItems(s.rows, |init|, TotalRows(init));
      forall p | 0 <= p < |a + b|
        ensures WellPlaced(sections, (a + b)[p])
      {
        if p < |a| {
          WellPlacedExtend(init, a[p], s);
        } else {
          var q := p - |a|;
          var h := HeaderPart(s, TotalRows(init));
          if |h| <= q < |h| + |rs| {
            assert b[q] == rs[q - |h|];
          }
        }
      }
    }
  }

  /** The inner loop of getViewModel: one item per row of a section, numbered on from `start`. */
  method BuildRowItems(rows: seq<Row>, sectionIndex: nat, start: nat) returns (items: seq<Item>, index: nat)
    ensures items == RowItems(rows, sectionIndex, start) && index == start + |rows|
  {
    items := [];
    index := start;
    var indexInSection := 0;
    while indexInSection < |rows|
      invariant 0 <= indexInSection <= |rows|
      invariant index == start + indexInSection
      invariant items == RowItems(rows[..indexInSection], sectionIndex, start)
    {
      var row := rows[indexInSection];
      assert RowItems(rows[..indexInSection + 1], sectionIndex, start)
          == RowItems(rows[..indexInSection], sectionIndex, start)
             + [RowItem(row, index, sectionIndex, indexInSection)];
      items := items + [RowItem(row, index, sectionIndex, indexInSection)];
      index := index + 1;
      indexInSection := indexInSection + 1;
    }
    assert rows[..indexInSection] == rows;
  }

  /** The body of getViewModel's section loop: the header item if titled, the row items and
      the footer item if titled, with the row number after the section. */
  method BuildSectionItems(section: Section, sectionIndex: nat, start: nat) returns (part: seq<Item>, index: nat)
    ensures part == SectionItems(section, sectionIndex, start) && index == start + |section.rows|
  {
    var header := HeaderPart(section, start);
    var rowItems;
    rowItems, index := BuildRowItems(section.rows, sectionIndex, start);
    part := header + rowItems + FooterPart(section, index);
  }

  /** One more section extends the flat view by its items and the row count by its rows. */
  lemma FlattenStep(ss: seq<Section>, i: nat)
    requires i < |ss|
    ensures Flatten(ss[..i + 1]) == Flatten(ss[..i]) + SectionItems(ss[i], i, TotalRows(ss[..i]))
    ensures TotalRows(ss[..i + 1]) == TotalRows(ss[..i]) + |ss[i].rows|
  {
    assert ss[..i + 1][..i] == ss[..i];
  }

  /** The outer loop of getViewModel: each section's header, rows and footer in turn, with the
      row number running on across sections. */
  method FlattenSections(ss: seq<Section>) returns (items: seq<Item>)
    ensures items == Flatten(ss)
  {
    items := [];
    var sectionIndex := 0;
    var index := 0;
    while sectionIndex < |ss|
      invariant 0 <= sectionIndex <= |ss|
      invariant items == Flatten(ss[..sectionIndex])
      invariant index == TotalRows(ss[..sectionIndex])
    {
      FlattenStep(ss, sectionIndex);
      var part;
      part, index := BuildSectionItems(ss[sectionIndex], sectionIndex, index);
      items := items + part;
      sectionIndex := sectionIndex + 1;
    }
    assert ss[..sectionIndex] == ss;
  }

  // ---------------------------------------------------------------------------
  // The model object

  /** The list object the model hands out as its view: callers that hold it see it cleared
      when the model is released. */
  class ItemList {
    var items: seq<Item>

    constructor (items: seq<Item>)
      ensures this.items == items
    {
      this.items := items;
    }
  }

  class TableViewModel {
    var dirty: bool
    /** The flat view; null once released. */
    var viewModel: ItemList?
    /** Whether the table proxy is still attached (it is dropped on release). */
    var hasProxy: bool

    /** A new model: dirty, with a fresh empty view. */
    constructor ()
      ensures dirty && fresh(viewModel) && viewModel.items == [] && hasProxy
    {
      dirty := true;
      viewModel := new ItemList([]);
      hasProxy := true;
    }

    /** Empties the view list in place, then drops it and the proxy. */
    method Release()
      modifies this, viewModel
      ensures viewModel == null && !hasProxy && dirty == old(dirty)
      ensures old(viewModel) != null ==> old(viewModel).items == []
    {
      if viewModel != null {
        viewModel.items := [];
        viewModel := null;
      }
      hasProxy := false;
    }

    /** The number of items in the view; 0 once released. */
    function GetRowCount(): (r: nat)
      reads this, viewModel
      ensures viewModel == null ==> r == 0
      ensures viewModel != null ==> r == |viewModel.items|
    {
      if viewModel == null then 0 else |viewModel.items|
    }

    method SetDirty()
      modifies this
      ensures dirty && viewModel == old(viewModel) && hasProxy == old(hasProxy)
    {
      dirty := true;
    }

    /** Returns the view, first rebuilding it from the proxy's sections when dirty. The
        rebuild starts from a fresh empty list; without a proxy it fails on the null
        reference, and with no sections it leaves the list empty and the model dirty. */
    method GetViewModel(sections: Option<seq<Section>>) returns (r: Result<ItemList?>)
      modifies this
      ensures hasProxy == old(hasProxy)
      ensures !old(dirty) ==> !dirty && viewModel == old(viewModel) && r == Success(viewModel)
      ensures old(dirty) ==> fresh(viewModel)
      ensures old(dirty) && !hasProxy ==> dirty && viewModel.items == [] && r == Failure(NullPointerException)
      ensures old(dirty) && hasProxy && sections.None? ==>
                dirty && viewModel.items == [] && r == Success(viewModel)
      ensures old(dirty) && hasProxy && sections.Some? ==>
                !dirty && viewModel.items == Flatten(sections.value) && r == Success(viewModel)
    {
      if dirty {
        viewModel := new ItemList([]);
        if !hasProxy {
          return Failure(NullPointerException);
        }
        if sections.Some? {
          var items := FlattenSections(sections.value);
          viewModel.items := items;
          dirty := false;
        }
      }
      r := Success(viewModel);
    }

    /** The position of the first item numbered `index`, or -1 when there is none, when the
        view was released, or when `index` exceeds the number of items. */
    method GetViewIndex(index: int) returns (position: int)
      ensures position == -1 || (viewModel != null && 0 <= position < |viewModel.items|
                                 && viewModel.items[position].index == index)
      ensures position >= 0 ==> forall j :: 0 <= j < position ==> viewModel.items[j].index != index
      ensures position == -1 <==>
                (viewModel == null || index > |viewModel.items|
                 || forall j :: 0 <= j < |viewModel.items| ==> viewModel.items[j].index != index)
    {
      position := -1;
      if viewModel != null && index <= |viewModel.items| {
        var items := viewModel.items;
        var i := 0;
        while i < |items|
          invariant 0 <= i <= |items|
          invariant forall j :: 0 <= j < i ==> items[j].index != index
        {
          if items[i].index == index {
            position := i;
            return;
          }
          i := i + 1;
        }
      }
    }
  }

  /** A view handed out by a rebuild and still held by the caller is the flat table until the
      model is released, and is found empty afterwards. */
  method ReleaseEmptiesHeldView(m: TableViewModel, sections: seq<Section>)
      returns (before: seq<Item>, held: ItemList?)
    requires m.dirty && m.hasProxy
    modifies m
    ensures held != null && before == Flatten(sections) && held.items == []
    ensures m.viewModel == null && m.GetRowCount() == 0
  {
    var r := m.GetViewModel(Some(sections));
    held := r.value;
    before := held.items;
    m.Release();
  }

  /** Every row number of a flattened table is found by the view-index search: the first
      item carrying it exists. */
  lemma {:induction false} RowNumberPresent(sections: seq<Section>, n: nat)
    requires n < TotalRows(sections)
    ensures exists p :: 0 <= p < |Flatten(sections)| && Flatten(sections)[p].index == n
  {
    var items := Flatten(sections);
    FlattenIndexCountsRows(sections);
    RowNumberPresentIn(items, n);
  }

  lemma {:induction false} RowNumberPresentIn(items: seq<Item>, n: nat)
    requires n < CountRows(items)
    requires IndexCountsRows(items, 0)
    ensures exists p :: 0 <= p < |items| && items[p].index == n
  {
    var init := items[..|items| - 1];
    if n < CountRows(init) {
      forall p | 0 <= p < |init|
        ensures init[p].index == CountRows(init[..p])
      {
        assert init[..p] == items[..p];
      }
      RowNumberPresentIn(init, n);
      var p :| 0 <= p < |init| && init[p].index == n;
      assert items[p] == init[p];
    } else {
      assert items[|items| - 1].index == CountRows(init) == n;
    }
  }
}
