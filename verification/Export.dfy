/** The export arrives split by page: a section's row carries the stands of that page, and stands whose section
    came on another page come under its name alone (`orchestra_export` in src/up.py). `merge_sections`
    (casals_cli/ic.py) puts them together again. */
module Export {
  import opened Options
  import opened Tables
  import opened Filters

  datatype Section = Section(name: string, fields: string)

  datatype Stand = Stand(name: string, section: string, fields: string)

  /** `full` is missing on a row that only carries stands. */
  datatype Row = Row(name: string, full: Option<Section>, stands: seq<Stand>)

  // ---------- one page of the export ----------

  function Of(stands: seq<Stand>, section: string): seq<Stand> {
    if stands == [] then []
    else if stands[0].section == section then [stands[0]] + Of(stands[1..], section)
    else Of(stands[1..], section)
  }

  /** The sections stands name, in the order they first do. */
  function Grouped(stands: seq<Stand>): seq<string> {
    if stands == [] then []
    else
      var before := Grouped(stands[..|stands| - 1]);
      var name := stands[|stands| - 1].section;
      if name in before then before else before + [name]
  }

  predicate IsNamed(sections: seq<Section>, name: string) {
    exists s <- sections :: s.name == name
  }

  function FullRows(sections: seq<Section>, stands: seq<Stand>): seq<Row> {
    seq(|sections|, i requires 0 <= i < |sections| => Row(sections[i].name, Some(sections[i]), Of(stands, sections[i].name)))
  }

  function PartRows(names: seq<string>, sections: seq<Section>, stands: seq<Stand>): seq<Row> {
    if names == [] then []
    else if IsNamed(sections, names[0]) then PartRows(names[1..], sections, stands)
    else [Row(names[0], None, Of(stands, names[0]))] + PartRows(names[1..], sections, stands)
  }

  function PageRows(sections: seq<Section>, stands: seq<Stand>): seq<Row> {
    FullRows(sections, stands) + PartRows(Grouped(stands), sections, stands)
  }

  lemma OneMore<T>(s: seq<T>, i: nat)
    requires i < |s|
    ensures s[..i + 1] == s[..i] + [s[i]]
  {
  }

  /** A dict from section to stands, its keys in insertion order. */
  ghost predicate IsGrouping(keys: seq<string>, groups: map<string, seq<Stand>>, stands: seq<Stand>) {
    && keys == Grouped(stands)
    && (forall k :: k in groups <==> k in keys)
    && (forall k :: Of(stands, k) == if k in groups then groups[k] else [])
  }

  lemma GroupOneMore(keys: seq<string>, groups: map<string, seq<Stand>>, stands: seq<Stand>, s: Stand)
    requires IsGrouping(keys, groups, stands)
    ensures IsGrouping(if s.section in keys then keys else keys + [s.section],
                       groups[s.section := (if s.section in groups then groups[s.section] else []) + [s]], stands + [s])
  {
    assert (stands + [s])[..|stands|] == stands;
    forall k ensures Of(stands + [s], k) == if s.section == k then Of(stands, k) + [s] else Of(stands, k) { OfOneMore(stands, s, k); }
  }

  lemma OfOneMore(stands: seq<Stand>, s: Stand, k: string)
    ensures Of(stands + [s], k) == if s.section == k then Of(stands, k) + [s] else Of(stands, k)
  {
    OfAppend(stands, [s], k);
    assert Of([s], k) == if s.section == k then [s] + Of([], k) else Of([], k);
    assert Of(stands, k) + [] == Of(stands, k);
  }

  method AddStand(keys: seq<string>, groups: map<string, seq<Stand>>, s: Stand, ghost stands: seq<Stand>)
      returns (keys': seq<string>, groups': map<string, seq<Stand>>)
    requires IsGrouping(keys, groups, stands)
    ensures IsGrouping(keys', groups', stands + [s])
  {
    GroupOneMore(keys, groups, stands, s);
    assert s.section in groups <==> s.section in keys;
    keys' := if s.section in keys then keys else keys + [s.section];
    groups' := groups[s.section := (if s.section in groups then groups[s.section] else []) + [s]];
  }

  method GroupBySection(stands: seq<Stand>) returns (keys: seq<string>, groups: map<string, seq<Stand>>)
    ensures IsGrouping(keys, groups, stands)
  {
    keys, groups := [], map[];
    for i := 0 to |stands|
      invariant IsGrouping(keys, groups, stands[..i])
    {
      keys, groups := AddStand(keys, groups, stands[i], stands[..i]);
      OneMore(stands, i);
    }
    assert stands[..|stands|] == stands;
  }

  /** What is left of the groups once the first `n` sections have taken theirs. */
  ghost predicate LeftBy(left: map<string, seq<Stand>>, groups: map<string, seq<Stand>>, sections: seq<Section>, n: nat)
    requires n <= |sections|
  {
    && (forall k :: k in left <==> k in groups && forall j :: 0 <= j < n ==> sections[j].name != k)
    && (forall k <- left :: k in groups && left[k] == groups[k])
  }

  lemma TakeGroup(left: map<string, seq<Stand>>, groups: map<string, seq<Stand>>, sections: seq<Section>, n: nat)
    requires n < |sections| && DistinctNames(sections) && LeftBy(left, groups, sections, n)
    ensures sections[n].name in left <==> sections[n].name in groups
    ensures sections[n].name in left ==> left[sections[n].name] == groups[sections[n].name]
    ensures LeftBy(left - {sections[n].name}, groups, sections, n + 1)
  {
    assert forall j :: 0 <= j < n ==> sections[j].name != sections[n].name;
  }

  lemma LeftIffUnnamed(left: map<string, seq<Stand>>, groups: map<string, seq<Stand>>, sections: seq<Section>, k: string)
    requires LeftBy(left, groups, sections, |sections|) && k in groups
    ensures k in left <==> !IsNamed(sections, k)
    ensures k in left ==> left[k] == groups[k]
  {
    if IsNamed(sections, k) {
      var x :| x in sections && x.name == k;
      var j :| 0 <= j < |sections| && sections[j] == x;
    }
  }

  method TakeFullRows(sections: seq<Section>, keys: seq<string>, groups: map<string, seq<Stand>>, ghost stands: seq<Stand>)
      returns (rows: seq<Row>, left: map<string, seq<Stand>>)
    requires DistinctNames(sections) && IsGrouping(keys, groups, stands)
    ensures rows == FullRows(sections, stands)
    ensures LeftBy(left, groups, sections, |sections|)
  {
    rows, left := [], groups;
    for i := 0 to |sections|
      invariant |rows| == i && forall j :: 0 <= j < i ==> rows[j] == FullRows(sections, stands)[j]
      invariant LeftBy(left, groups, sections, i)
    {
      var name := sections[i].name;
      TakeGroup(left, groups, sections, i);
      rows := rows + [Row(name, Some(sections[i]), if name in left then left[name] else [])];
      left := left - {name};
    }
  }

  lemma PartRowsNext(keys: seq<string>, i: nat, sections: seq<Section>, stands: seq<Stand>)
    requires i < |keys|
    ensures PartRows(keys[i..], sections, stands)
         == (if IsNamed(sections, keys[i]) then [] else [Row(keys[i], None, Of(stands, keys[i]))]) + PartRows(keys[i + 1..], sections, stands)
  {
    assert keys[i..][0] == keys[i] && keys[i..][1..] == keys[i + 1..];
  }

  method EmitPartRows(keys: seq<string>, left: map<string, seq<Stand>>, ghost sections: seq<Section>, ghost stands: seq<Stand>)
      returns (rows: seq<Row>)
    requires forall k <- keys :: k in left <==> !IsNamed(sections, k)
    requires forall k <- keys :: k in left ==> left[k] == Of(stands, k)
    ensures rows == PartRows(keys, sections, stands)
  {
    rows := [];
    for i := 0 to |keys|
      invariant rows + PartRows(keys[i..], sections, stands) == PartRows(keys, sections, stands)
    {
      var k := keys[i];
      PartRowsNext(keys, i, sections, stands);
      Regroup(rows, [Row(k, None, Of(stands, k))], PartRows(keys[i + 1..], sections, stands));
      if k in left { rows := rows + [Row(k, None, left[k])]; }
    }
  }

  /** The page as the conductor builds it: stands grouped into a dict, whose groups the full rows take out. */
  method ExportPage(sections: seq<Section>, stands: seq<Stand>) returns (rows: seq<Row>)
    requires DistinctNames(sections)
    ensures rows == PageRows(sections, stands)
  {
    var keys, groups := GroupBySection(stands);
    var full, left := TakeFullRows(sections, keys, groups, stands);
    forall k <- keys
      ensures k in left <==> !IsNamed(sections, k)
      ensures k in left ==> left[k] == Of(stands, k)
    {
      LeftIffUnnamed(left, groups, sections, k);
    }
    var part := EmitPartRows(keys, left, sections, stands);
    rows := full + part;
  }

  ghost predicate DistinctNames(sections: seq<Section>) {
    forall i, j :: 0 <= i < j < |sections| ==> sections[i].name != sections[j].name
  }

  lemma {:induction false} OfAppend(a: seq<Stand>, b: seq<Stand>, section: string)
    ensures Of(a + b, section) == Of(a, section) + Of(b, section)
  {
    if a == [] {
      assert a + b == b;
    } else {
      assert (a + b)[1..] == a[1..] + b;
      OfAppend(a[1..], b, section);
    }
  }

  // ---------- merging ----------

  /** Names in the order `test` first holds of one of their rows. */
  function FullNames(rows: seq<Row>): seq<string> {
    if rows == [] then []
    else
      var before := FullNames(rows[..|rows| - 1]);
      var r := rows[|rows| - 1];
      if r.full.None? || r.name in before then before else before + [r.name]
  }

  function AllNames(rows: seq<Row>): seq<string> {
    if rows == [] then []
    else
      var before := AllNames(rows[..|rows| - 1]);
      var r := rows[|rows| - 1];
      if r.name in before then before else before + [r.name]
  }

  function FirstFull(rows: seq<Row>, name: string): Option<Section> {
    if rows == [] then None
    else if rows[0].name == name && rows[0].full.Some? then rows[0].full
    else FirstFull(rows[1..], name)
  }

  function StandsOf(rows: seq<Row>, name: string): seq<Stand> {
    if rows == [] then []
    else (if rows[0].name == name then rows[0].stands else []) + StandsOf(rows[1..], name)
  }

  function Except(names: seq<string>, some: seq<string>): seq<string> {
    if names == [] then []
    else if names[0] in some then Except(names[1..], some)
    else [names[0]] + Except(names[1..], some)
  }

  function RowsFor(names: seq<string>, rows: seq<Row>): seq<Row> {
    seq(|names|, i requires 0 <= i < |names| => Row(names[i], FirstFull(rows, names[i]), StandsOf(rows, names[i])))
  }

  function Merged(rows: seq<Row>): seq<Row> {
    RowsFor(FullNames(rows) + Except(AllNames(rows), FullNames(rows)), rows)
  }

  lemma {:induction false} StandsOfAppend(a: seq<Row>, b: seq<Row>, name: string)
    ensures StandsOf(a + b, name) == StandsOf(a, name) + StandsOf(b, name)
  {
    if a == [] {
      assert a + b == b;
    } else {
      assert (a + b)[1..] == a[1..] + b;
      StandsOfAppend(a[1..], b, name);
      assert forall x: seq<Stand>, y: seq<Stand>, z: seq<Stand> :: x + y + z == x + (y + z);
    }
  }

  lemma {:induction false} FirstFullAppend(a: seq<Row>, b: seq<Row>, name: string)
    ensures FirstFull(a + b, name) == if FirstFull(a, name).Some? then FirstFull(a, name) else FirstFull(b, name)
  {
    if a == [] {
      assert a + b == b;
    } else {
      assert (a + b)[1..] == a[1..] + b;
      FirstFullAppend(a[1..], b, name);
    }
  }

  ghost predicate FullAgrees(full: map<string, Section>, rows: seq<Row>, name: string) {
    && (name in full <==> name in FullNames(rows))
    && FirstFull(rows, name) == if name in full then Some(full[name]) else None
  }

  ghost predicate HasFull(keys: seq<string>, full: map<string, Section>, rows: seq<Row>) {
    keys == FullNames(rows) && forall name :: FullAgrees(full, rows, name)
  }

  ghost predicate StandsAgree(stands: map<string, seq<Stand>>, rows: seq<Row>, name: string) {
    && (name in stands <==> name in AllNames(rows))
    && StandsOf(rows, name) == if name in stands then stands[name] else []
  }

  ghost predicate HasStands(keys: seq<string>, stands: map<string, seq<Stand>>, rows: seq<Row>) {
    keys == AllNames(rows) && forall name :: StandsAgree(stands, rows, name)
  }

  lemma FullNamesOneMore(rows: seq<Row>, r: Row)
    ensures FullNames(rows + [r]) == if r.full.None? || r.name in FullNames(rows) then FullNames(rows) else FullNames(rows) + [r.name]
  {
    assert (rows + [r])[..|rows|] == rows;
  }

  lemma FullAt(full: map<string, Section>, rows: seq<Row>, r: Row, name: string)
    requires FullAgrees(full, rows, name) && FullAgrees(full, rows, r.name)
    ensures FullAgrees(if r.full.Some? && r.name !in full then full[r.name := r.full.value] else full, rows + [r], name)
  {
    FullNamesOneMore(rows, r);
    FirstFullAppend(rows, [r], name);
  }

  lemma FullOneMore(keys: seq<string>, full: map<string, Section>, rows: seq<Row>, r: Row)
    requires HasFull(keys, full, rows)
    ensures r.full.Some? && r.name !in full ==> HasFull(keys + [r.name], full[r.name := r.full.value], rows + [r])
    ensures !(r.full.Some? && r.name !in full) ==> HasFull(keys, full, rows + [r])
  {
    var full' := if r.full.Some? && r.name !in full then full[r.name := r.full.value] else full;
    assert FullAgrees(full, rows, r.name);
    FullNamesOneMore(rows, r);
    forall name ensures FullAgrees(full', rows + [r], name) { assert FullAgrees(full, rows, name); FullAt(full, rows, r, name); }
  }

  lemma AllNamesOneMore(rows: seq<Row>, r: Row)
    ensures AllNames(rows + [r]) == if r.name in AllNames(rows) then AllNames(rows) else AllNames(rows) + [r.name]
  {
    assert (rows + [r])[..|rows|] == rows;
  }

  lemma StandsAdded(rows: seq<Row>, r: Row, name: string)
    ensures StandsOf(rows + [r], name) == if r.name == name then StandsOf(rows, name) + r.stands else StandsOf(rows, name)
  {
    StandsOfAppend(rows, [r], name);
    assert StandsOf([r], name) == (if r.name == name then r.stands else []) + StandsOf([], name);
    assert r.stands + [] == r.stands && StandsOf(rows, name) + [] == StandsOf(rows, name);
  }

  lemma StandsAt(stands: map<string, seq<Stand>>, rows: seq<Row>, r: Row, name: string)
    requires StandsAgree(stands, rows, name) && StandsAgree(stands, rows, r.name)
    ensures StandsAgree(stands[r.name := (if r.name in stands then stands[r.name] else []) + r.stands], rows + [r], name)
  {
    StandsAdded(rows, r, name);
    AllNamesOneMore(rows, r);
  }

  lemma StandsOneMore(keys: seq<string>, stands: map<string, seq<Stand>>, rows: seq<Row>, r: Row)
    requires HasStands(keys, stands, rows)
    ensures HasStands(if r.name in stands then keys else keys + [r.name],
                      stands[r.name := (if r.name in stands then stands[r.name] else []) + r.stands], rows + [r])
  {
    var stands' := stands[r.name := (if r.name in stands then stands[r.name] else []) + r.stands];
    assert StandsAgree(stands, rows, r.name);
    AllNamesOneMore(rows, r);
    forall name ensures StandsAgree(stands', rows + [r], name) { assert StandsAgree(stands, rows, name); StandsAt(stands, rows, r, name); }
  }

  lemma RowForName(fullKeys: seq<string>, full: map<string, Section>, standKeys: seq<string>, stands: map<string, seq<Stand>>,
                   rows: seq<Row>, name: string)
    requires HasFull(fullKeys, full, rows) && HasStands(standKeys, stands, rows)
    ensures FirstFull(rows, name) == if name in full then Some(full[name]) else None
    ensures StandsOf(rows, name) == if name in stands then stands[name] else []
  {
    assert FullAgrees(full, rows, name) && StandsAgree(stands, rows, name);
  }

  method Emit(names: seq<string>, fullKeys: seq<string>, full: map<string, Section>,
              standKeys: seq<string>, stands: map<string, seq<Stand>>, ghost rows: seq<Row>) returns (out: seq<Row>)
    requires HasFull(fullKeys, full, rows) && HasStands(standKeys, stands, rows)
    ensures out == RowsFor(names, rows)
  {
    out := [];
    for i := 0 to |names|
      invariant |out| == i && forall j :: 0 <= j < i ==> out[j] == RowsFor(names, rows)[j]
    {
      var n := names[i];
      RowForName(fullKeys, full, standKeys, stands, rows, n);
      out := out + [Row(n, if n in full then Some(full[n]) else None, if n in stands then stands[n] else [])];
    }
  }

  method TakeFull(keys: seq<string>, full: map<string, Section>, r: Row, ghost rows: seq<Row>)
      returns (keys': seq<string>, full': map<string, Section>)
    requires HasFull(keys, full, rows)
    ensures HasFull(keys', full', rows + [r])
  {
    FullOneMore(keys, full, rows, r);
    keys', full' := keys, full;
    if r.full.Some? && r.name !in full {
      keys', full' := keys + [r.name], full[r.name := r.full.value];
    }
  }

  method TakeStands(keys: seq<string>, stands: map<string, seq<Stand>>, r: Row, ghost rows: seq<Row>)
      returns (keys': seq<string>, stands': map<string, seq<Stand>>)
    requires HasStands(keys, stands, rows)
    ensures HasStands(keys', stands', rows + [r])
  {
    StandsOneMore(keys, stands, rows, r);
    keys' := if r.name in stands then keys else keys + [r.name];
    stands' := stands[r.name := (if r.name in stands then stands[r.name] else []) + r.stands];
  }

  /** The two dicts that the loop over the rows fills. */
  method CollectRows(rows: seq<Row>)
      returns (fullKeys: seq<string>, full: map<string, Section>, standKeys: seq<string>, stands: map<string, seq<Stand>>)
    ensures HasFull(fullKeys, full, rows) && HasStands(standKeys, stands, rows)
  {
    fullKeys, full, standKeys, stands := [], map[], [], map[];
    assert rows[..0] == [];
    for i := 0 to |rows|
      invariant HasFull(fullKeys, full, rows[..i])
      invariant HasStands(standKeys, stands, rows[..i])
    {
      standKeys, stands := TakeStands(standKeys, stands, rows[i], rows[..i]);
      fullKeys, full := TakeFull(fullKeys, full, rows[i], rows[..i]);
      OneMore(rows, i);
    }
    assert rows[..|rows|] == rows;
  }

  method MergeSections(rows: seq<Row>) returns (out: seq<Row>)
    ensures out == Merged(rows)
  {
    var fullKeys, full, standKeys, stands := CollectRows(rows);
    out := Emit(fullKeys + Except(standKeys, fullKeys), fullKeys, full, standKeys, stands, rows);
  }

  // ---------- paged export, merged ----------

  /** What one page of an export read: consecutive sections and consecutive stands. */
  datatype Slice = Slice(sections: seq<Section>, stands: seq<Stand>)

  function SectionsOf(slices: seq<Slice>): seq<Section> {
    if slices == [] then [] else slices[0].sections + SectionsOf(slices[1..])
  }

  function StandsIn(slices: seq<Slice>): seq<Stand> {
    if slices == [] then [] else slices[0].stands + StandsIn(slices[1..])
  }

  function Pages(slices: seq<Slice>): seq<Row> {
    if slices == [] then [] else PageRows(slices[0].sections, slices[0].stands) + Pages(slices[1..])
  }

  /** Every section once, in order, with all its stands, in order. */
  function Whole(sections: seq<Section>, stands: seq<Stand>): seq<Row> {
    FullRows(sections, stands)
  }

  /** Every stand's section is in the section table. */
  ghost predicate Homed(sections: seq<Section>, stands: seq<Stand>) {
    forall st <- stands :: IsNamed(sections, st.section)
  }

  lemma {:induction false} FullRowsStands(sections: seq<Section>, stands: seq<Stand>, name: string)
    requires DistinctNames(sections)
    ensures StandsOf(FullRows(sections, stands), name) == if IsNamed(sections, name) then Of(stands, name) else []
    ensures FullRows(sections, stands) != [] ==> FullRows(sections, stands)[1..] == FullRows(sections[1..], stands)
  {
    if sections != [] {
      assert FullRows(sections, stands)[1..] == FullRows(sections[1..], stands);
      assert DistinctNames(sections[1..]);
      FullRowsStands(sections[1..], stands, name);
      assert IsNamed(sections, name) <==> sections[0].name == name || IsNamed(sections[1..], name);
    }
  }

  ghost predicate Once(names: seq<string>) {
    forall i, j :: 0 <= i < j < |names| ==> names[i] != names[j]
  }

  lemma {:induction false} PartRowsStands(names: seq<string>, sections: seq<Section>, stands: seq<Stand>, name: string)
    requires Once(names)
    ensures StandsOf(PartRows(names, sections, stands), name) == if name in names && !IsNamed(sections, name) then Of(stands, name) else []
    ensures forall r <- PartRows(names, sections, stands) :: r.full.None?
    ensures FirstFull(PartRows(names, sections, stands), name) == None
  {
    if names != [] {
      assert Once(names[1..]);
      PartRowsStands(names[1..], sections, stands, name);
      assert names[0] !in names[1..];
    }
  }

  lemma {:induction false} GroupedNames(stands: seq<Stand>)
    ensures Once(Grouped(stands))
    ensures forall k :: k in Grouped(stands) <==> exists st <- stands :: st.section == k
    ensures forall k :: k !in Grouped(stands) ==> Of(stands, k) == []
  {
    if stands != [] {
      var n := |stands| - 1;
      var init, last := stands[..n], stands[n];
      assert stands == init + [last];
      GroupedNames(init);
      forall k ensures Of(stands, k) == Of(init, k) + (if last.section == k then [last] else []) {
        OfAppend(init, [last], k);
        assert [last][1..] == [];
        assert Of([last], k) == if last.section == k then [last] + Of([], k) else Of([], k);
      }
      assert forall st :: st in stands <==> st in init || st == last;
    }
  }

  /** A page's rows for a name carry exactly the page's stands of that section. */
  lemma PageStands(sections: seq<Section>, stands: seq<Stand>, name: string)
    requires DistinctNames(sections)
    ensures StandsOf(PageRows(sections, stands), name) == Of(stands, name)
  {
    StandsOfAppend(FullRows(sections, stands), PartRows(Grouped(stands), sections, stands), name);
    FullRowsStands(sections, stands, name);
    GroupedNames(stands);
    PartRowsStands(Grouped(stands), sections, stands, name);
  }

  lemma {:induction false} PagesStands(slices: seq<Slice>, name: string)
    requires forall sl <- slices :: DistinctNames(sl.sections)
    ensures StandsOf(Pages(slices), name) == Of(StandsIn(slices), name)
  {
    if slices != [] {
      var sl := slices[0];
      assert sl in slices;
      PageStands(sl.sections, sl.stands, name);
      StandsOfAppend(PageRows(sl.sections, sl.stands), Pages(slices[1..]), name);
      PagesStands(slices[1..], name);
      OfAppend(sl.stands, StandsIn(slices[1..]), name);
    }
  }

  function Names(sections: seq<Section>): seq<string> {
    seq(|sections|, i requires 0 <= i < |sections| => sections[i].name)
  }

  /** The names of the full rows, repeats and all. */
  function FullSeq(rows: seq<Row>): seq<string> {
    if rows == [] then []
    else if rows[0].full.Some? then [rows[0].name] + FullSeq(rows[1..])
    else FullSeq(rows[1..])
  }

  lemma {:induction false} FullSeqAppend(a: seq<Row>, b: seq<Row>)
    ensures FullSeq(a + b) == FullSeq(a) + FullSeq(b)
  {
    if a == [] {
      assert a + b == b;
    } else {
      assert (a + b)[1..] == a[1..] + b;
      FullSeqAppend(a[1..], b);
    }
  }

  lemma {:induction false} FullNamesIsFullSeq(rows: seq<Row>)
    requires Once(FullSeq(rows))
    ensures FullNames(rows) == FullSeq(rows)
  {
    if rows != [] {
      var n := |rows| - 1;
      var init, r := rows[..n], rows[n];
      assert rows == init + [r] && [r][1..] == [];
      FullSeqAppend(init, [r]);
      assert FullSeq([r]) == if r.full.Some? then [r.name] + FullSeq([]) else FullSeq([]);
      assert forall i :: 0 <= i < |FullSeq(init)| ==> FullSeq(init)[i] == FullSeq(rows)[i];
      FullNamesIsFullSeq(init);
      if r.full.Some? {
        assert FullSeq(rows)[|FullSeq(init)|] == r.name;
      }
    }
  }

  lemma {:induction false} FullSeqOfFullRows(sections: seq<Section>, stands: seq<Stand>)
    ensures FullSeq(FullRows(sections, stands)) == Names(sections)
  {
    if sections != [] {
      assert FullRows(sections, stands)[1..] == FullRows(sections[1..], stands);
      FullSeqOfFullRows(sections[1..], stands);
      assert Names(sections) == [sections[0].name] + Names(sections[1..]);
    }
  }

  lemma {:induction false} NoFullSeq(rows: seq<Row>)
    requires forall r <- rows :: r.full.None?
    ensures FullSeq(rows) == []
  {
    if rows != [] {
      assert rows[0] in rows && forall r <- rows[1..] :: r in rows;
      NoFullSeq(rows[1..]);
    }
  }

  lemma FullSeqOfPage(sections: seq<Section>, stands: seq<Stand>)
    ensures FullSeq(PageRows(sections, stands)) == Names(sections)
  {
    var part := PartRows(Grouped(stands), sections, stands);
    FullSeqAppend(FullRows(sections, stands), part);
    FullSeqOfFullRows(sections, stands);
    GroupedNames(stands);
    PartRowsStands(Grouped(stands), sections, stands, "");
    NoFullSeq(part);
  }

  lemma NamesAppend(a: seq<Section>, b: seq<Section>)
    ensures Names(a + b) == Names(a) + Names(b)
  {
  }

  lemma {:induction false} FullSeqOfPages(slices: seq<Slice>)
    ensures FullSeq(Pages(slices)) == Names(SectionsOf(slices))
  {
    if slices != [] {
      var sl, rest := slices[0], slices[1..];
      FullSeqAppend(PageRows(sl.sections, sl.stands), Pages(rest));
      FullSeqOfPage(sl.sections, sl.stands);
      FullSeqOfPages(rest);
      NamesAppend(sl.sections, SectionsOf(rest));
    }
  }

  // ---------- every row has a section's name, and every section its full row ----------

  lemma {:induction false} AllNamesAreRows(rows: seq<Row>)
    ensures forall k <- AllNames(rows) :: exists r <- rows :: r.name == k
  {
    if rows != [] {
      var n := |rows| - 1;
      AllNamesAreRows(rows[..n]);
      assert forall r <- rows[..n] :: r in rows;
      assert rows[n] in rows;
    }
  }

  lemma {:induction false} PartRowNames(names: seq<string>, sections: seq<Section>, stands: seq<Stand>)
    ensures forall r <- PartRows(names, sections, stands) :: r.name in names
  {
    if names != [] { PartRowNames(names[1..], sections, stands); }
  }

  lemma PageRowNames(sections: seq<Section>, stands: seq<Stand>, r: Row)
    requires r in PageRows(sections, stands)
    ensures IsNamed(sections, r.name) || exists st <- stands :: st.section == r.name
  {
    if r in FullRows(sections, stands) {
      var i :| 0 <= i < |sections| && FullRows(sections, stands)[i] == r;
      assert sections[i] in sections;
    } else {
      PartRowNames(Grouped(stands), sections, stands);
      GroupedNames(stands);
    }
  }

  lemma {:induction false} PagesRowNames(slices: seq<Slice>, r: Row)
    requires r in Pages(slices)
    ensures IsNamed(SectionsOf(slices), r.name) || exists st <- StandsIn(slices) :: st.section == r.name
  {
    var sl, rest := slices[0], slices[1..];
    if r in PageRows(sl.sections, sl.stands) {
      PageRowNames(sl.sections, sl.stands, r);
      assert forall x <- sl.sections :: x in SectionsOf(slices);
      assert forall x <- sl.stands :: x in StandsIn(slices);
    } else {
      PagesRowNames(rest, r);
      assert forall x <- SectionsOf(rest) :: x in SectionsOf(slices);
      assert forall x <- StandsIn(rest) :: x in StandsIn(slices);
    }
  }

  lemma {:induction false} FirstFullOfFullRows(sections: seq<Section>, stands: seq<Stand>, i: nat)
    requires DistinctNames(sections) && i < |sections|
    ensures FirstFull(FullRows(sections, stands), sections[i].name) == Some(sections[i])
  {
    assert FullRows(sections, stands)[1..] == FullRows(sections[1..], stands);
    if i > 0 {
      assert DistinctNames(sections[1..]);
      FirstFullOfFullRows(sections[1..], stands, i - 1);
    }
  }

  lemma {:induction false} NoFirstFull(rows: seq<Row>, name: string)
    requires name !in FullSeq(rows)
    ensures FirstFull(rows, name) == None
  {
    if rows != [] { NoFirstFull(rows[1..], name); }
  }

  lemma PartsDistinct(a: seq<Section>, b: seq<Section>)
    requires DistinctNames(a + b)
    ensures DistinctNames(a) && DistinctNames(b)
  {
    assert forall i :: 0 <= i < |a| ==> a[i] == (a + b)[i];
    assert forall i :: 0 <= i < |b| ==> b[i] == (a + b)[|a| + i];
  }

  lemma {:induction false} FirstFullOfPages(slices: seq<Slice>, i: nat)
    requires DistinctNames(SectionsOf(slices)) && i < |SectionsOf(slices)|
    ensures FirstFull(Pages(slices), SectionsOf(slices)[i].name) == Some(SectionsOf(slices)[i])
  {
    var sl, rest, name := slices[0], slices[1..], SectionsOf(slices)[i].name;
    var full, part := FullRows(sl.sections, sl.stands), PartRows(Grouped(sl.stands), sl.sections, sl.stands);
    var all := SectionsOf(slices);
    assert all == sl.sections + SectionsOf(rest);
    FirstFullAppend(full + part, Pages(rest), name);
    FirstFullAppend(full, part, name);
    PartsDistinct(sl.sections, SectionsOf(rest));
    if i < |sl.sections| {
      FirstFullOfFullRows(sl.sections, sl.stands, i);
    } else {
      FullSeqOfFullRows(sl.sections, sl.stands);
      assert name !in Names(sl.sections) by {
        assert forall j :: 0 <= j < |sl.sections| ==> Names(sl.sections)[j] == all[j].name;
      }
      NoFirstFull(full, name);
      GroupedNames(sl.stands);
      PartRowsStands(Grouped(sl.stands), sl.sections, sl.stands, name);
      FirstFullOfPages(rest, i - |sl.sections|);
    }
  }

  lemma {:induction false} ExceptAll(names: seq<string>, some: seq<string>)
    requires forall k <- names :: k in some
    ensures Except(names, some) == []
  {
    if names != [] {
      assert names[0] in names;
      ExceptAll(names[1..], some);
    }
  }

  lemma {:induction false} SlicesDistinct(slices: seq<Slice>)
    requires DistinctNames(SectionsOf(slices))
    ensures forall sl <- slices :: DistinctNames(sl.sections)
  {
    if slices != [] {
      var sl, rest := slices[0], slices[1..];
      PartsDistinct(sl.sections, SectionsOf(rest));
      SlicesDistinct(rest);
    }
  }

  /** However sections and stands were split over pages, merging the pages' rows gives every section once, in
      order, with all its stands in order: the unpaged export. */
  lemma MergedPagesAreWhole(slices: seq<Slice>)
    requires DistinctNames(SectionsOf(slices)) && Homed(SectionsOf(slices), StandsIn(slices))
    ensures Merged(Pages(slices)) == Whole(SectionsOf(slices), StandsIn(slices))
  {
    var all, rows := SectionsOf(slices), Pages(slices);
    FullSeqOfPages(slices);
    assert Once(FullSeq(rows)) by {
      assert forall i :: 0 <= i < |all| ==> FullSeq(rows)[i] == all[i].name;
    }
    FullNamesIsFullSeq(rows);
    forall k <- AllNames(rows)
      ensures k in FullNames(rows)
    {
      AllNamesAreRows(rows);
      var r :| r in rows && r.name == k;
      PagesRowNames(slices, r);
      assert IsNamed(all, k);
      var s :| s in all && s.name == k;
      var i :| 0 <= i < |all| && all[i] == s;
      assert Names(all)[i] == k;
    }
    ExceptAll(AllNames(rows), FullNames(rows));
    SlicesDistinct(slices);
    forall i | 0 <= i < |all|
      ensures RowsFor(Names(all), rows)[i] == Whole(all, StandsIn(slices))[i]
    {
      FirstFullOfPages(slices, i);
      PagesStands(slices, all[i].name);
    }
    assert Names(all) + [] == Names(all);
  }

  // ---------- the whole read of an export ----------

  function Rows<R>(t: seq<Entry<R>>): (r: seq<R>)
    ensures |r| == |t| && forall i :: 0 <= i < |r| ==> r[i] == t[i].row
  {
    seq(|t|, i requires 0 <= i < |t| => t[i].row)
  }

  /** The page at a cursor; nothing once the list is complete. */
  function PageAt<R>(t: seq<Entry<R>>, c: Option<nat>, count: int): (seq<Entry<R>>, Option<nat>) {
    if c.None? then ([], None) else Page(t, c.value, count)
  }

  /** The pages an export is read in: each with its own page size, both cursors advancing until null. */
  function Slices(sections: seq<Entry<Section>>, stands: seq<Entry<Stand>>, c: Option<nat>, d: Option<nat>, counts: seq<int>): (seq<Slice>, Option<nat>, Option<nat>)
    decreases |counts|
  {
    if counts == [] then ([], c, d)
    else
      var (ss, c') := PageAt(sections, c, counts[0]);
      var (ts, d') := PageAt(stands, d, counts[0]);
      var (rest, e, f) := Slices(sections, stands, c', d', counts[1..]);
      ([Slice(Rows(ss), Rows(ts))] + rest, e, f)
  }

  /** What one list contributes to the pages. */
  function Taken<R>(t: seq<Entry<R>>, c: Option<nat>, counts: seq<int>): (seq<R>, Option<nat>)
    decreases |counts|
  {
    if counts == [] then ([], c)
    else
      var (page, c') := PageAt(t, c, counts[0]);
      var (more, e) := Taken(t, c', counts[1..]);
      (Rows(page) + more, e)
  }

  lemma RowsAppend<R>(a: seq<Entry<R>>, b: seq<Entry<R>>)
    ensures Rows(a + b) == Rows(a) + Rows(b)
  {
  }

  lemma {:induction false} SlicesTake(sections: seq<Entry<Section>>, stands: seq<Entry<Stand>>, c: Option<nat>, d: Option<nat>, counts: seq<int>)
    ensures var (slices, e, f) := Slices(sections, stands, c, d, counts);
      (SectionsOf(slices), e) == Taken(sections, c, counts) && (StandsIn(slices), f) == Taken(stands, d, counts)
    decreases |counts|
  {
    if counts != [] {
      SlicesTake(sections, stands, PageAt(sections, c, counts[0]).1, PageAt(stands, d, counts[0]).1, counts[1..]);
    }
  }

  lemma PageAtRest<R>(t: seq<Entry<R>>, c: Option<nat>, count: int)
    requires Ascending(t)
    ensures Rows(PageAt(t, c, count).0) + Rows(Rest(t, PageAt(t, c, count).1)) == Rows(Rest(t, c))
  {
    if c.Some? { PageThenRest(t, c.value, count); }
    RowsAppend(PageAt(t, c, count).0, Rest(t, PageAt(t, c, count).1));
  }

  lemma Regroup<R>(a: seq<R>, b: seq<R>, c: seq<R>)
    ensures (a + b) + c == a + (b + c)
  {
  }

  lemma {:induction false} TakenIsRest<R>(t: seq<Entry<R>>, c: Option<nat>, counts: seq<int>)
    requires Ascending(t)
    ensures Taken(t, c, counts).0 + Rows(Rest(t, Taken(t, c, counts).1)) == Rows(Rest(t, c))
    decreases |counts|
  {
    if counts != [] {
      var (page, c') := PageAt(t, c, counts[0]);
      PageAtRest(t, c, counts[0]);
      TakenIsRest(t, c', counts[1..]);
      var (more, e) := Taken(t, c', counts[1..]);
      Regroup(Rows(page), more, Rows(Rest(t, e)));
    }
  }

  /** An export read to the end in pages of any sizes merges to the export read in one. */
  lemma PagedExportIsWhole(sections: seq<Entry<Section>>, stands: seq<Entry<Stand>>, counts: seq<int>)
    requires Ascending(sections) && Ascending(stands)
    requires DistinctNames(Rows(sections)) && Homed(Rows(sections), Rows(stands))
    requires Slices(sections, stands, Some(1), Some(1), counts).1.None? && Slices(sections, stands, Some(1), Some(1), counts).2.None?
    ensures Merged(Pages(Slices(sections, stands, Some(1), Some(1), counts).0)) == Whole(Rows(sections), Rows(stands))
  {
    var slices := Slices(sections, stands, Some(1), Some(1), counts).0;
    SlicesTake(sections, stands, Some(1), Some(1), counts);
    TakenIsRest(sections, Some(1), counts);
    TakenIsRest(stands, Some(1), counts);
    FromAll(sections, 1);
    FromAll(stands, 1);
    assert SectionsOf(slices) == Rows(sections);
    assert StandsIn(slices) == Rows(stands);
    MergedPagesAreWhole(slices);
  }

  // ---------- what an export holds ----------

  /** The stands of a section, each once, in the order of the table. */
  ghost predicate AreStandsOf(out: seq<Stand>, stands: seq<Stand>, section: string) {
    IsFilter(out, stands, (st: Stand) => st.section == section, (st: Stand) => st)
  }

  lemma {:induction false} OfIsFilter(stands: seq<Stand>, section: string)
    ensures AreStandsOf(Of(stands, section), stands, section)
  {
    if stands == [] {
      FilterNone((st: Stand) => st.section == section, (st: Stand) => st);
    } else {
      OfIsFilter(stands[1..], section);
      FilterNext(Of(stands[1..], section), stands, (st: Stand) => st.section == section, (st: Stand) => st);
    }
  }

  /** Every section once, in order, with what it says and with all its stands. */
  ghost predicate IsExport(out: seq<Row>, sections: seq<Section>, stands: seq<Stand>) {
    |out| == |sections| && forall i :: 0 <= i < |out| ==>
      out[i].name == sections[i].name && out[i].full == Some(sections[i]) && AreStandsOf(out[i].stands, stands, sections[i].name)
  }

  lemma WholeIsExport(sections: seq<Section>, stands: seq<Stand>)
    ensures IsExport(Whole(sections, stands), sections, stands)
  {
    forall i | 0 <= i < |sections| ensures AreStandsOf(Whole(sections, stands)[i].stands, stands, sections[i].name) { OfIsFilter(stands, sections[i].name); }
  }

  /** An export read to the end, in pages of any sizes, and merged, holds just that of the two tables. */
  lemma ExportAnswers(sections: seq<Entry<Section>>, stands: seq<Entry<Stand>>, counts: seq<int>)
    requires Ascending(sections) && Ascending(stands)
    requires DistinctNames(Rows(sections)) && Homed(Rows(sections), Rows(stands))
    requires Slices(sections, stands, Some(1), Some(1), counts).1.None? && Slices(sections, stands, Some(1), Some(1), counts).2.None?
    ensures IsExport(Merged(Pages(Slices(sections, stands, Some(1), Some(1), counts).0)), Rows(sections), Rows(stands))
  {
    PagedExportIsWhole(sections, stands, counts);
    WholeIsExport(Rows(sections), Rows(stands));
  }
}
