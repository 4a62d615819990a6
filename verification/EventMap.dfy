/** The event table: how gen_event_map.py composes the kernel's declarations with its device
    tree, and how the shim rewrites command buffers with the result. */
module EventMap {
  import opened Options

  // ---- the order in which Python sorts names ----

  predicate Less(a: string, b: string) {
    b != [] && (a == [] || a[0] < b[0] || (a[0] == b[0] && Less(a[1..], b[1..])))
  }

  lemma {:induction false} LessTotal(a: string, b: string)
    ensures Less(a, b) || a == b || Less(b, a)
    ensures !(Less(a, b) && Less(b, a)) && !Less(a, a)
  {
    if a != [] && b != [] && a[0] == b[0] {
      LessTotal(a[1..], b[1..]);
      assert a == [a[0]] + a[1..] && b == [b[0]] + b[1..];
    }
    if a != [] {
      LessTotal(a[1..], a[1..]);
    }
  }

  lemma {:induction false} LessTransitive(a: string, b: string, c: string)
    requires Less(a, b) && Less(b, c)
    ensures Less(a, c)
  {
    if a != [] && a[0] == b[0] && b[0] == c[0] {
      LessTransitive(a[1..], b[1..], c[1..]);
    }
  }

  /** The first difference decides, and a proper prefix comes first. */
  lemma {:induction false} LessMeans(a: string, b: string)
    ensures Less(a, b) <==> exists k :: DiffersAt(a, b, k)
  {
    if b != [] && a != [] && a[0] == b[0] {
      LessMeans(a[1..], b[1..]);
      assert a == [a[0]] + a[1..] && b == [b[0]] + b[1..];
      if k :| DiffersAt(a[1..], b[1..], k) {
        assert a[..k + 1] == [a[0]] + a[1..][..k] && b[..k + 1] == [b[0]] + b[1..][..k];
        assert DiffersAt(a, b, k + 1);
      }
      if k :| DiffersAt(a, b, k) {
        assert k > 0;
        assert a[1..][..k - 1] == a[..k][1..] && b[1..][..k - 1] == b[..k][1..];
        assert DiffersAt(a[1..], b[1..], k - 1);
      }
    } else if b != [] {
      if a == [] || a[0] < b[0] {
        assert DiffersAt(a, b, 0);
      }
      if k :| 0 < k && DiffersAt(a, b, k) {
        assert a[..k][0] == b[..k][0];
      }
    }
  }

  /** a and b agree up to k, where a ends or has the smaller character. */
  predicate DiffersAt(a: string, b: string, k: int) {
    0 <= k <= |a| && k < |b| && a[..k] == b[..k] && (k == |a| || a[k] < b[k])
  }

  predicate Sorted(names: seq<string>) {
    forall i, j :: 0 <= i < j < |names| ==> Less(names[i], names[j])
  }

  function Inserted(names: seq<string>, x: string): (r: seq<string>)
    ensures forall y :: y in r <==> y in names || y == x
  {
    if names == [] then [x]
    else if Less(x, names[0]) then [x] + names
    else [names[0]] + Inserted(names[1..], x)
  }

  lemma {:induction false} InsertedSorted(names: seq<string>, x: string)
    requires Sorted(names) && x !in names
    ensures Sorted(Inserted(names, x))
  {
    hide Less;
    var r := Inserted(names, x);
    if names != [] {
      if Less(x, names[0]) {
        forall j | 0 < j < |r|
          ensures Less(x, r[j])
        {
          if j > 1 {
            LessTransitive(x, names[0], names[j - 1]);
          }
        }
      } else {
        InsertedSorted(names[1..], x);
        LessTotal(x, names[0]);
        forall j | 0 < j < |r|
          ensures Less(names[0], r[j])
        {
          assert r[j] in Inserted(names[1..], x);
          if r[j] != x {
            assert r[j] in names[1..];
          }
        }
      }
    }
  }

  /** sorted(): every name once, in order. */
  method SortNames(names: set<string>) returns (r: seq<string>)
    ensures Sorted(r) && forall y :: y in r <==> y in names
  {
    r := [];
    var rest := names;
    while rest != {}
      invariant rest <= names && Sorted(r)
      invariant forall y :: y in r <==> y in names && y !in rest
      decreases |rest|
    {
      var x :| x in rest;
      InsertedSorted(r, x);
      r := Inserted(r, x);
      rest := rest - {x};
    }
  }

  // ---- the two parsed files ----

  /** DECLARE_CMDQ_EVENT(name, index, dts). */
  datatype Decl = Decl(name: string, index: int, dts: string)

  /** dts = <hw>; */
  datatype Prop = Prop(dts: string, hw: nat)

  /** The index of a name: its first declaration with a nonnegative index. */
  function EnumOf(ds: seq<Decl>, dts: string): (r: Option<int>)
    ensures r.Some? ==> exists i :: 0 <= i < |ds| && ds[i].dts == dts && ds[i].index == r.value && r.value >= 0
  {
    if ds == [] then None
    else
      var before := EnumOf(ds[..|ds| - 1], dts);
      var last := ds[|ds| - 1];
      if before.Some? then before
      else if last.dts == dts && last.index >= 0 then Some(last.index)
      else None
  }

  /** The hardware value of a name: its first property. */
  function HwOf(ps: seq<Prop>, dts: string): Option<nat> {
    if ps == [] then None
    else
      var before := HwOf(ps[..|ps| - 1], dts);
      var last := ps[|ps| - 1];
      if before.Some? then before else if last.dts == dts then Some(last.hw) else None
  }

  /** Declaration i is the first of its name with a nonnegative index. */
  predicate FirstDeclared(ds: seq<Decl>, i: int) {
    && 0 <= i < |ds| && ds[i].index >= 0
    && forall j :: 0 <= j < i ==> !(ds[j].dts == ds[i].dts && ds[j].index >= 0)
  }

  /** The first declaration of a name counts, whatever follows. */
  lemma {:induction false} EnumOfFirst(ds: seq<Decl>, i: int)
    requires FirstDeclared(ds, i)
    ensures EnumOf(ds, ds[i].dts) == Some(ds[i].index)
    decreases |ds|
  {
    var before := ds[..|ds| - 1];
    if i < |before| {
      assert forall j :: 0 <= j < i ==> before[j] == ds[j];
      EnumOfFirst(before, i);
    } else {
      NotDeclared(before, ds[i].dts);
    }
  }

  lemma {:induction false} NotDeclared(ds: seq<Decl>, dts: string)
    requires forall j :: 0 <= j < |ds| ==> !(ds[j].dts == dts && ds[j].index >= 0)
    ensures EnumOf(ds, dts) == None
    decreases |ds|
  {
    if ds != [] {
      NotDeclared(ds[..|ds| - 1], dts);
    }
  }

  predicate FirstProperty(ps: seq<Prop>, i: int) {
    0 <= i < |ps| && forall j :: 0 <= j < i ==> ps[j].dts != ps[i].dts
  }

  /** And so does the first property of a name. */
  lemma {:induction false} HwOfFirst(ps: seq<Prop>, i: int)
    requires FirstProperty(ps, i)
    ensures HwOf(ps, ps[i].dts) == Some(ps[i].hw)
    decreases |ps|
  {
    var before := ps[..|ps| - 1];
    if i < |before| {
      assert forall j :: 0 <= j < i ==> before[j] == ps[j];
      HwOfFirst(before, i);
    } else {
      NoProperty(before, ps[i].dts);
    }
  }

  lemma {:induction false} NoProperty(ps: seq<Prop>, dts: string)
    requires forall j :: 0 <= j < |ps| ==> ps[j].dts != dts
    ensures HwOf(ps, dts) == None
    decreases |ps|
  {
    if ps != [] {
      NoProperty(ps[..|ps| - 1], dts);
    }
  }

  ghost predicate IsEnumMap(m: map<string, int>, ds: seq<Decl>) {
    forall d: string :: if d in m then EnumOf(ds, d) == Some(m[d]) else EnumOf(ds, d) == None
  }

  ghost predicate IsHwMap(m: map<string, nat>, ps: seq<Prop>) {
    forall d: string :: if d in m then HwOf(ps, d) == Some(m[d]) else HwOf(ps, d) == None
  }

  method EnumByDts(ds: seq<Decl>) returns (m: map<string, int>)
    ensures IsEnumMap(m, ds)
  {
    m := map[];
    for i := 0 to |ds|
      invariant IsEnumMap(m, ds[..i])
    {
      assert ds[..i + 1][..i] == ds[..i];
      if ds[i].index < 0 {
        continue;
      }
      if ds[i].dts !in m {
        m := m[ds[i].dts := ds[i].index];
      }
    }
    assert ds[..|ds|] == ds;
  }

  method HwByDts(ps: seq<Prop>) returns (m: map<string, nat>)
    ensures IsHwMap(m, ps)
  {
    m := map[];
    for i := 0 to |ps|
      invariant IsHwMap(m, ps[..i])
    {
      assert ps[..i + 1][..i] == ps[..i];
      if ps[i].dts !in m {
        m := m[ps[i].dts := ps[i].hw];
      }
    }
    assert ps[..|ps|] == ps;
  }

  // ---- their composition ----

  /** A mapped value carries the index of the least name that has both. */
  datatype Entry = Entry(index: int, dts: string)

  ghost predicate Links(ds: seq<Decl>, ps: seq<Prop>, dts: string, hw: nat) {
    HwOf(ps, dts) == Some(hw) && EnumOf(ds, dts).Some?
  }

  ghost predicate IsComposed(m: map<nat, Entry>, ds: seq<Decl>, ps: seq<Prop>) {
    && (forall d, hw :: Links(ds, ps, d, hw) ==> hw in m && !Less(d, m[hw].dts))
    && forall hw :: hw in m ==> Links(ds, ps, m[hw].dts, hw) && EnumOf(ds, m[hw].dts) == Some(m[hw].index)
  }

  /** Names that share a hardware value: the first one in order with an index wins. */
  method Compose(enumByDts: map<string, int>, hwByDts: map<string, nat>, ghost ds: seq<Decl>, ghost ps: seq<Prop>)
    returns (m: map<nat, Entry>)
    requires IsEnumMap(enumByDts, ds) && IsHwMap(hwByDts, ps)
    ensures IsComposed(m, ds, ps)
  {
    hide Less, EnumOf, HwOf, Covered;
    m := map[];
    var names := SortNames(hwByDts.Keys);
    for i := 0 to |names|
      invariant forall j :: 0 <= j < i ==> Covered(m, enumByDts, hwByDts, names[j])
      invariant forall hw :: hw in m ==>
                  && m[hw].dts in names[..i] && m[hw].dts in enumByDts
                  && hwByDts[m[hw].dts] == hw && enumByDts[m[hw].dts] == m[hw].index
    {
      var dts := names[i];
      LessTotal(dts, dts);
      var hw := hwByDts[dts];
      if dts !in enumByDts || hw in m {
        NotLess(names, i, m, hw);
        CoveredBy(m, enumByDts, hwByDts, dts);
        continue;
      }
      ghost var before := m;
      m := m[hw := Entry(enumByDts[dts], dts)];
      CoveredBy(m, enumByDts, hwByDts, dts);
      forall j | 0 <= j < i
        ensures Covered(m, enumByDts, hwByDts, names[j])
      {
        StaysCovered(before, enumByDts, hwByDts, names[j], hw, m[hw]);
      }
    }
    forall d, hw | Links(ds, ps, d, hw)
      ensures hw in m && !Less(d, m[hw].dts)
    {
      assert d in hwByDts && d in names;
      CoveredMeans(m, enumByDts, hwByDts, d);
    }
  }

  /** A name with an index has its hardware value mapped, to itself or a name before it. */
  ghost predicate Covered(m: map<nat, Entry>, enumByDts: map<string, int>, hwByDts: map<string, nat>, d: string) {
    d in enumByDts && d in hwByDts ==> hwByDts[d] in m && !Less(d, m[hwByDts[d]].dts)
  }

  lemma CoveredBy(m: map<nat, Entry>, enumByDts: map<string, int>, hwByDts: map<string, nat>, d: string)
    requires d in hwByDts && (d in enumByDts ==> hwByDts[d] in m && !Less(d, m[hwByDts[d]].dts))
    ensures Covered(m, enumByDts, hwByDts, d)
  {
  }

  lemma CoveredMeans(m: map<nat, Entry>, enumByDts: map<string, int>, hwByDts: map<string, nat>, d: string)
    requires Covered(m, enumByDts, hwByDts, d) && d in enumByDts && d in hwByDts
    ensures hwByDts[d] in m && !Less(d, m[hwByDts[d]].dts)
  {
  }

  lemma StaysCovered(m: map<nat, Entry>, enumByDts: map<string, int>, hwByDts: map<string, nat>, d: string, hw: nat, e: Entry)
    requires Covered(m, enumByDts, hwByDts, d) && hw !in m
    ensures Covered(m[hw := e], enumByDts, hwByDts, d)
  {
    hide Less;
  }

  lemma NotLess(names: seq<string>, i: nat, m: map<nat, Entry>, hw: nat)
    requires Sorted(names) && i < |names| && (hw in m ==> m[hw].dts in names[..i])
    ensures hw in m ==> !Less(names[i], m[hw].dts)
  {
    if hw in m {
      LessTotal(names[i], m[hw].dts);
    }
  }

  /** The composition is determined by the two files. */
  lemma ComposedUnique(m: map<nat, Entry>, m': map<nat, Entry>, ds: seq<Decl>, ps: seq<Prop>, hw: nat)
    requires IsComposed(m, ds, ps) && IsComposed(m', ds, ps)
    ensures hw in m <==> hw in m'
    ensures hw in m ==> m[hw] == m'[hw]
  {
    if hw in m && hw in m' {
      LessTotal(m[hw].dts, m'[hw].dts);
    }
  }

  // ---- the emitted table ----

  /** The value that an initialiser leaves in a C short. */
  function Short(x: int): (s: int)
    ensures -32768 <= s <= 32767
  {
    (x + 32768) % 65536 - 32768
  }

  lemma ShortExact(x: int)
    ensures Short(x) == x <==> -32768 <= x <= 32767
  {
  }

  function TableEntry(m: map<nat, Entry>, hw: nat): int {
    if hw in m then Short(m[hw].index) else -1
  }

  ghost predicate IsTable(table: seq<int>, m: map<nat, Entry>) {
    && |table| > 0
    && (forall hw :: hw in m ==> hw < |table|)
    && (|table| > 1 ==> |table| - 1 in m)
    && forall hw :: 0 <= hw < |table| ==> table[hw] == TableEntry(m, hw)
  }

  method EmitTable(m: map<nat, Entry>) returns (table: seq<int>)
    ensures IsTable(table, m)
  {
    var hi := 0;
    var rest := m.Keys;
    while rest != {}
      invariant rest <= m.Keys && (hi > 0 ==> hi in m)
      invariant forall hw :: hw in m && hw !in rest ==> hw <= hi
      decreases |rest|
    {
      var hw :| hw in rest;
      if hw > hi {
        hi := hw;
      }
      rest := rest - {hw};
    }
    table := [];
    for hw := 0 to hi + 1
      invariant |table| == hw && forall k :: 0 <= k < hw ==> table[k] == TableEntry(m, k)
    {
      table := table + [if hw in m then Short(m[hw].index) else -1];
    }
  }

  /** The whole generator. */
  method Generate(ds: seq<Decl>, ps: seq<Prop>) returns (table: seq<int>, m: map<nat, Entry>)
    ensures IsComposed(m, ds, ps) && IsTable(table, m)
  {
    var enumByDts := EnumByDts(ds);
    var hwByDts := HwByDts(ps);
    m := Compose(enumByDts, hwByDts, ds, ps);
    table := EmitTable(m);
  }

  // ---- the kernel's reading ----

  /** The name declared with an index. */
  function NameOf(ds: seq<Decl>, index: int): Option<string> {
    if ds == [] then None
    else if ds[0].index == index then Some(ds[0].dts)
    else NameOf(ds[1..], index)
  }

  /** What the kernel waits on when it is given an index. */
  function Decode(ds: seq<Decl>, ps: seq<Prop>, index: int): Option<nat> {
    var name := NameOf(ds, index);
    if name.None? then None else HwOf(ps, name.value)
  }

  /** Declaration i is the first with this index. */
  predicate FirstWith(ds: seq<Decl>, index: int, i: int) {
    0 <= i < |ds| && ds[i].index == index && forall j :: 0 <= j < i ==> ds[j].index != index
  }

  /** The first declaration of this index names a property with this hardware value. */
  ghost predicate Names(ds: seq<Decl>, ps: seq<Prop>, index: int, hw: nat) {
    exists i :: FirstWith(ds, index, i) && HwOf(ps, ds[i].dts) == Some(hw)
  }

  lemma {:induction false} NameOfFirst(ds: seq<Decl>, index: int, i: int)
    requires FirstWith(ds, index, i)
    ensures NameOf(ds, index) == Some(ds[i].dts)
  {
    if i > 0 {
      assert ds[0].index != index;
      assert FirstWith(ds[1..], index, i - 1) by {
        forall j | 0 <= j < i - 1
          ensures ds[1..][j].index != index
        {
          assert ds[1..][j] == ds[j + 1];
        }
      }
      NameOfFirst(ds[1..], index, i - 1);
    }
  }

  lemma {:induction false} FindFirst(ds: seq<Decl>, index: int) returns (i: int)
    requires NameOf(ds, index).Some?
    ensures FirstWith(ds, index, i)
  {
    if ds[0].index == index {
      i := 0;
    } else {
      var k := FindFirst(ds[1..], index);
      i := k + 1;
      forall j | 0 <= j < i
        ensures ds[j].index != index
      {
        if j > 0 {
          assert ds[j] == ds[1..][j - 1];
        }
      }
    }
  }

  /** What the kernel decodes, in terms of the two files. */
  lemma DecodeExactly(ds: seq<Decl>, ps: seq<Prop>, index: int, hw: nat)
    ensures Decode(ds, ps, index) == Some(hw) <==> Names(ds, ps, index, hw)
  {
    hide NameOf, HwOf;
    if NameOf(ds, index).Some? {
      var i := FindFirst(ds, index);
      NameOfFirst(ds, index, i);
    }
    if Names(ds, ps, index, hw) {
      var i :| FirstWith(ds, index, i) && HwOf(ps, ds[i].dts) == Some(hw);
      NameOfFirst(ds, index, i);
    }
  }

  // ---- when the table is faithful ----

  /** No index that the table uses is declared twice. */
  ghost predicate MappedOnce(ds: seq<Decl>, m: map<nat, Entry>) {
    forall hw, i, j :: hw in m && 0 <= i < |ds| && 0 <= j < |ds| && ds[i].index == ds[j].index == m[hw].index ==> i == j
  }

  lemma MappedDeclared(ds: seq<Decl>, ps: seq<Prop>, m: map<nat, Entry>, hw: nat) returns (i: int)
    requires IsComposed(m, ds, ps) && hw in m
    ensures 0 <= i < |ds| && ds[i].dts == m[hw].dts && ds[i].index == m[hw].index && m[hw].index >= 0
    ensures HwOf(ps, ds[i].dts) == Some(hw)
  {
    hide HwOf, Less;
    i :| 0 <= i < |ds| && ds[i].dts == m[hw].dts && ds[i].index == m[hw].index && m[hw].index >= 0;
  }

  /** An entry keeps its index exactly up to the limit of its type. */
  lemma EntryExact(ds: seq<Decl>, ps: seq<Prop>, m: map<nat, Entry>, table: seq<int>, hw: nat)
    requires IsComposed(m, ds, ps) && IsTable(table, m) && hw in m
    ensures table[hw] == m[hw].index <==> m[hw].index <= 32767
    ensures table[hw] >= 0 <==> m[hw].index % 65536 <= 32767
    ensures table[hw] >= 0 ==> table[hw] == m[hw].index % 65536
  {
    hide EnumOf, HwOf, Less;
    var i := MappedDeclared(ds, ps, m, hw);
  }

  /** The table holds the composition exactly when every mapped index fits a short. */
  lemma TableExact(ds: seq<Decl>, ps: seq<Prop>, m: map<nat, Entry>, table: seq<int>)
    requires IsComposed(m, ds, ps) && IsTable(table, m)
    ensures (forall hw :: hw in m ==> table[hw] == m[hw].index) <==> (forall hw :: hw in m ==> m[hw].index <= 32767)
  {
    hide EnumOf, HwOf, Less, TableEntry, IsComposed;
    forall hw | hw in m
      ensures table[hw] == m[hw].index <==> m[hw].index <= 32767
    {
      EntryExact(ds, ps, m, table, hw);
    }
  }

  /** Two mapped values share an entry exactly when their indices agree modulo the range of a
      short. */
  lemma TableCollides(ds: seq<Decl>, ps: seq<Prop>, m: map<nat, Entry>, table: seq<int>, a: nat, b: nat)
    requires IsComposed(m, ds, ps) && IsTable(table, m) && a in m && b in m
    ensures table[a] == table[b] <==> SameShort(m[a].index, m[b].index)
  {
    hide EnumOf, HwOf, Less, IsComposed;
  }

  /** Decoding an entry leads back to its hardware value exactly when the index keeps its sign
      in a short and the first declaration of what is left of it has that value. */
  lemma EntryDecodes(ds: seq<Decl>, ps: seq<Prop>, m: map<nat, Entry>, table: seq<int>, hw: nat)
    requires IsComposed(m, ds, ps) && IsTable(table, m) && hw in m
    ensures var kept := m[hw].index % 65536;
            table[hw] >= 0 && Decode(ds, ps, table[hw]) == Some(hw) <==> kept <= 32767 && Names(ds, ps, kept, hw)
  {
    hide EnumOf, HwOf, Less, IsComposed, Decode, Names, TableEntry;
    EntryExact(ds, ps, m, table, hw);
    DecodeExactly(ds, ps, m[hw].index % 65536, hw);
  }

  /** Where mapped indices are declared once, nothing but the size of the index matters. */
  lemma TableDecodes(ds: seq<Decl>, ps: seq<Prop>, m: map<nat, Entry>, table: seq<int>, hw: nat)
    requires MappedOnce(ds, m) && IsComposed(m, ds, ps) && IsTable(table, m) && hw < |table|
    ensures hw !in m ==> table[hw] < 0
    ensures hw in m && m[hw].index < 65536 ==>
              (table[hw] >= 0 && Decode(ds, ps, table[hw]) == Some(hw) <==> m[hw].index <= 32767)
    ensures hw in m && m[hw].index <= 32767 ==> table[hw] == m[hw].index
  {
    hide EnumOf, HwOf, Less, IsComposed, Decode, TableEntry;
    if hw in m {
      var i := MappedDeclared(ds, ps, m, hw);
      assert FirstWith(ds, m[hw].index, i);
      EntryExact(ds, ps, m, table, hw);
      EntryDecodes(ds, ps, m, table, hw);
    } else {
      Unmapped(m, table, hw);
    }
  }

  lemma Unmapped(m: map<nat, Entry>, table: seq<int>, hw: nat)
    requires IsTable(table, m) && hw < |table| && hw !in m
    ensures table[hw] == -1
  {
  }

  /** No two mapped values share an entry exactly when no two mapped indices agree modulo the
      range of a short. */
  lemma TableInjective(ds: seq<Decl>, ps: seq<Prop>, m: map<nat, Entry>, table: seq<int>)
    requires IsComposed(m, ds, ps) && IsTable(table, m)
    ensures (forall a, b :: a in m && b in m && a != b ==> table[a] != table[b])
       <==> (forall a, b :: a in m && b in m && a != b ==> !SameShort(m[a].index, m[b].index))
  {
    hide EnumOf, HwOf, Less, IsComposed, TableEntry, SameShort;
    forall a, b | a in m && b in m
      ensures table[a] == table[b] <==> SameShort(m[a].index, m[b].index)
    {
      TableCollides(ds, ps, m, table, a, b);
    }
  }

  predicate SameShort(x: int, y: int) {
    (x - y) % 65536 == 0
  }

  /** Indices that are declared once and fit never agree. */
  lemma OnceInjective(ds: seq<Decl>, ps: seq<Prop>, m: map<nat, Entry>, table: seq<int>, a: nat, b: nat)
    requires IsComposed(m, ds, ps) && IsTable(table, m) && MappedOnce(ds, m)
    requires a in m && b in m && m[a].index <= 32767 && m[b].index <= 32767 && table[a] == table[b]
    ensures a == b
  {
    hide EnumOf, HwOf, Less, IsComposed, TableEntry, MappedOnce;
    if a != b {
      OwnIndex(ds, ps, m, a, b);
      EntryExact(ds, ps, m, table, a);
      EntryExact(ds, ps, m, table, b);
    }
  }

  lemma OwnIndex(ds: seq<Decl>, ps: seq<Prop>, m: map<nat, Entry>, a: nat, b: nat)
    requires IsComposed(m, ds, ps) && a in m && b in m && a != b
    ensures MappedOnce(ds, m) ==> m[a].index != m[b].index
    ensures m[a].index >= 0 && m[b].index >= 0
  {
    hide EnumOf, HwOf, Less, IsComposed;
    var i := MappedDeclared(ds, ps, m, a);
    var j := MappedDeclared(ds, ps, m, b);
  }

  // ---- the rewrite ----

  const MOP_EVENT_FIRST := 3
  const MOP_EVENT_LAST := 7

  /** One command; offset is the event of an event operation. */
  datatype Meta = Meta(op: int, engine: int, offset: nat, value: int, mask: int)

  predicate IsEvent(m: Meta) {
    MOP_EVENT_FIRST <= m.op <= MOP_EVENT_LAST
  }

  function Rewritten(m: Meta, table: seq<int>): Meta {
    if IsEvent(m) && m.offset < |table| && table[m.offset] >= 0 then m.(offset := table[m.offset]) else m
  }

  /** The loop of the interposed ioctl, over the whole command buffer in place. */
  method RewriteEvents(metas: array<Meta>, table: seq<int>) returns (fixed: nat)
    modifies metas
    ensures forall i :: 0 <= i < metas.Length ==> metas[i] == Rewritten(old(metas[i]), table)
    ensures fixed == Mapped(old(metas[..]), table)
  {
    fixed := 0;
    ghost var before := metas[..];
    for i := 0 to metas.Length
      invariant forall k :: 0 <= k < i ==> metas[k] == Rewritten(before[k], table)
      invariant forall k :: i <= k < metas.Length ==> metas[k] == before[k]
      invariant fixed == Mapped(before[..i], table)
    {
      assert before[..i + 1][..i] == before[..i];
      if metas[i].op < MOP_EVENT_FIRST || metas[i].op > MOP_EVENT_LAST {
        continue;
      }
      var ev := metas[i].offset;
      if ev < |table| && table[ev] >= 0 {
        metas[i] := metas[i].(offset := table[ev]);
        fixed := fixed + 1;
      }
    }
    assert before[..metas.Length] == before;
  }

  /** How many commands wait on a mapped event. */
  function Mapped(metas: seq<Meta>, table: seq<int>): nat {
    if metas == [] then 0
    else
      var last := metas[|metas| - 1];
      Mapped(metas[..|metas| - 1], table)
      + if IsEvent(last) && last.offset < |table| && table[last.offset] >= 0 then 1 else 0
  }

  /** The commands that wait on a mapped event. */
  ghost function Waiting(metas: seq<Meta>, table: seq<int>): set<nat> {
    set i: nat | i < |metas| && 3 <= metas[i].op <= 7 && metas[i].offset < |table| && table[metas[i].offset] >= 0
  }

  lemma {:induction false} MappedCounts(metas: seq<Meta>, table: seq<int>)
    ensures Mapped(metas, table) == |Waiting(metas, table)|
    decreases |metas|
  {
    if metas != [] {
      var before, n := metas[..|metas| - 1], |metas| - 1;
      MappedCounts(before, table);
      var last := metas[n];
      if 3 <= last.op <= 7 && last.offset < |table| && table[last.offset] >= 0 {
        assert Waiting(metas, table) == Waiting(before, table) + {n};
      } else {
        assert Waiting(metas, table) == Waiting(before, table);
      }
    }
  }

  /** The index that the kernel gets for a mapped event. */
  function Sent(m: map<nat, Entry>, hw: nat): int
    requires hw in m
  {
    if m[hw].index % 65536 <= 32767 then m[hw].index % 65536 else hw
  }

  /** For any two files: nothing but the event field of an event command changes, an event that
      is not mapped stays as it was, and the kernel waits on what the library asked for exactly
      when the first declaration of the index that it gets names that hardware value. */
  lemma RewriteExactly(ds: seq<Decl>, ps: seq<Prop>, m: map<nat, Entry>, table: seq<int>, meta: Meta)
    requires IsComposed(m, ds, ps) && IsTable(table, m)
    ensures var now := Rewritten(meta, table);
            && now.(offset := meta.offset) == meta
            && (!(3 <= meta.op <= 7) || meta.offset !in m ==> now == meta)
            && (3 <= meta.op <= 7 && meta.offset in m ==>
                  && now.offset == Sent(m, meta.offset)
                  && (Decode(ds, ps, now.offset) == Some(meta.offset) <==> Names(ds, ps, Sent(m, meta.offset), meta.offset)))
  {
    hide EnumOf, HwOf, Less, IsComposed, Decode, Names, TableEntry;
    if meta.offset in m {
      EntryExact(ds, ps, m, table, meta.offset);
      DecodeExactly(ds, ps, Sent(m, meta.offset), meta.offset);
    } else if meta.offset < |table| {
      Unmapped(m, table, meta.offset);
    }
  }

  /** So with mapped indices that are declared once and fit a short the kernel waits on exactly
      the events that the library asked for. */
  lemma RewriteFaithful(ds: seq<Decl>, ps: seq<Prop>, m: map<nat, Entry>, table: seq<int>, meta: Meta)
    requires MappedOnce(ds, m) && IsComposed(m, ds, ps) && IsTable(table, m)
    requires 3 <= meta.op <= 7 && meta.offset in m && m[meta.offset].index <= 32767
    ensures Decode(ds, ps, Rewritten(meta, table).offset) == Some(meta.offset)
  {
    hide EnumOf, HwOf, Less, IsComposed, Decode, TableEntry;
    TableDecodes(ds, ps, m, table, meta.offset);
    var i := MappedDeclared(ds, ps, m, meta.offset);
  }

  // ---- two files that the conditions exclude ----

  /** An index declared under two names sends two hardware values to the same event. */
  lemma SharedIndexCollides(m: map<nat, Entry>, table: seq<int>)
    requires IsComposed(m, [Decl("A", 1, "a"), Decl("B", 1, "b")], [Prop("a", 5), Prop("b", 6)]) && IsTable(table, m)
    ensures |table| == 7 && table[5] == 1 == table[6]
  {
    var ds := [Decl("A", 1, "a"), Decl("B", 1, "b")];
    var ps := [Prop("a", 5), Prop("b", 6)];
    SampleLookups(ds, ps, "a", "b", 1, 1, 5, 6);
    assert Links(ds, ps, "a", 5) && Links(ds, ps, "b", 6);
    assert 5 in m && 6 in m;
  }

  lemma {:induction false} SampleLookups(ds: seq<Decl>, ps: seq<Prop>, a: string, b: string, i: int, j: int, x: nat, y: nat)
    requires |ds| == |ps| == 2 && ds[0].dts == ps[0].dts == a && ds[1].dts == ps[1].dts == b && a != b
    requires ds[0].index == i >= 0 && ds[1].index == j >= 0 && ps[0].hw == x && ps[1].hw == y
    ensures forall d :: EnumOf(ds, d) == if d == a then Some(i) else if d == b then Some(j) else None
    ensures forall d :: HwOf(ps, d) == if d == a then Some(x) else if d == b then Some(y) else None
  {
    assert ds[..1] == [ds[0]] && [ds[0]][..0] == [];
    assert ps[..1] == [ps[0]] && [ps[0]][..0] == [];
    forall d: string
      ensures EnumOf(ds, d) == if d == a then Some(i) else if d == b then Some(j) else None
    {
      assert EnumOf([ds[0]], d) == if d == a then Some(i) else None;
    }
    forall d: string
      ensures HwOf(ps, d) == if d == a then Some(x) else if d == b then Some(y) else None
    {
      assert HwOf([ps[0]], d) == if d == a then Some(x) else None;
    }
  }

  /** An index beyond the table's C type becomes another one. */
  lemma LargeIndexTruncated(m: map<nat, Entry>, table: seq<int>)
    requires IsComposed(m, [Decl("A", 65537, "a"), Decl("B", 1, "b")], [Prop("a", 5), Prop("b", 6)]) && IsTable(table, m)
    ensures |table| == 7 && table[5] == 1 == table[6]
  {
    var ds := [Decl("A", 65537, "a"), Decl("B", 1, "b")];
    var ps := [Prop("a", 5), Prop("b", 6)];
    SampleLookups(ds, ps, "a", "b", 65537, 1, 5, 6);
    assert Links(ds, ps, "a", 5) && Links(ds, ps, "b", 6);
    assert 5 in m && 6 in m;
  }
}
