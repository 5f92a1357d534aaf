/**
  Synonym query expansion. A static list of synonym groups is inverted into a
  word table (lower-cased word -> the other members of its group); a query is
  expanded into variants that substitute a co-member for every table word the
  query contains, and into a de-duplicated list of lower-cased keywords.
 */
module QueryExpansion {
  import opened Wrappers
  import opened Text
  import opened Seqs

  /** The synonym groups of the knowledge base, in table order. */
  const SynonymGroups: seq<seq<string>> := [
    ["補助", "補助金額", "經費", "資金", "款項", "補貼", "補助費"],
    ["申請", "送件", "提案", "投標", "報名", "申報"],
    ["Phase 1", "第一階段", "先期研究", "創新技術", "Phase1", "phase 1", "一階"],
    ["Phase 2", "第二階段", "研究開發", "Phase2", "phase 2", "二階"],
    ["Phase 2+", "第三階段", "加值應用", "Phase2+", "phase 2+", "2+"],
    ["創新", "創新性", "創意", "突破", "新穎", "創新點"],
    ["技術", "技術創新", "科技", "研發技術", "技術研發"],
    ["可行性", "技術可行性", "執行可行性", "feasibility"],
    ["市場", "市場分析", "市場規模", "目標市場", "市場潛力"],
    ["商業化", "產業化", "市場化", "商品化"],
    ["團隊", "研發團隊", "執行團隊", "人力", "人員"],
    ["主持人", "計畫主持人", "負責人", "PI"],
    ["範例", "案例", "樣本", "示範", "參考", "example"],
    ["方法", "方法論", "做法", "步驟", "流程", "methodology"],
    ["檢核", "檢核清單", "清單", "查核", "檢查", "checklist"],
    ["指南", "指引", "說明", "guide", "教學"],
    ["經費", "預算", "費用", "成本", "支出"],
    ["編列", "編制", "規劃", "安排"],
    ["審查", "評審", "評分", "review"],
    ["評分", "評分標準", "評分項目", "分數"],
    ["機械", "機械產業", "機械業", "機械製造"],
    ["生技", "生物技術", "生技產業", "biotechnology"],
    ["ICT", "資通訊", "資訊", "通訊"]
  ]

  /** No group holds an empty word. */
  predicate WellFormed(groups: seq<seq<string>>) {
    forall g :: 0 <= g < |groups| ==> NonEmptyWords(groups[g])
  }

  predicate NonEmptyWords(words: seq<string>) {
    forall i :: 0 <= i < |words| ==> words[i] != []
  }

  /** The knowledge base's groups are well formed, so the table can be built. */
  lemma SynonymGroupsWellFormed()
    ensures WellFormed(SynonymGroups)
  {
    forall g | 0 <= g < |SynonymGroups| ensures NonEmptyWords(SynonymGroups[g]) {
    }
  }

  /** `[w for w in group if w != word]`. */
  function Without(group: seq<string>, word: string): (r: seq<string>)
    ensures forall x :: x in r <==> x in group && x != word
  {
    if group == [] then []
    else (if group[0] == word then [] else [group[0]]) + Without(group[1..], word)
  }

  // ---------------------------------------------------------------- the word table

  /** The word table as an insertion-ordered dictionary: `keys` in the order
      they were first inserted, `synonyms` the current value of each key. */
  datatype WordTable = WordTable(keys: seq<string>, synonyms: map<string, seq<string>>)

  const EmptyTable := WordTable([], map[])

  predicate ValidTable(t: WordTable) {
    && NoDups(t.keys)
    && t.synonyms.Keys == (set k | k in t.keys)
    && forall k :: k in t.keys ==> k != []
  }

  /** Dictionary assignment: a new key goes last, an existing key keeps its place. */
  function Insert(t: WordTable, k: string, v: seq<string>): (r: WordTable)
    requires ValidTable(t) && k != []
    ensures ValidTable(r)
    ensures k in r.synonyms && r.synonyms[k] == v
    ensures forall j :: j != k ==> (j in r.synonyms <==> j in t.synonyms)
    ensures forall j :: j != k && j in t.synonyms ==> r.synonyms[j] == t.synonyms[j]
  {
    if k in t.synonyms then WordTable(t.keys, t.synonyms[k := v])
    else
      assert forall i :: 0 <= i < |t.keys| ==> t.keys[i] != k;
      WordTable(t.keys + [k], t.synonyms[k := v])
  }

  /** The inner loop of the table construction for the first words of `group`. */
  function InsertWords(t: WordTable, group: seq<string>, words: seq<string>): (r: WordTable)
    requires ValidTable(t) && NonEmptyWords(words)
    ensures ValidTable(r)
  {
    if words == [] then t
    else
      var init := words[..|words| - 1];
      var w := words[|words| - 1];
      Insert(InsertWords(t, group, init), Lower(w), Without(group, w))
  }

  /** The outer loop of the table construction over the first groups. */
  function InsertGroups(t: WordTable, groups: seq<seq<string>>): (r: WordTable)
    requires ValidTable(t) && WellFormed(groups)
    ensures ValidTable(r)
  {
    if groups == [] then t
    else
      var init := groups[..|groups| - 1];
      assert forall g :: 0 <= g < |init| ==> init[g] == groups[g];
      InsertWords(InsertGroups(t, init), groups[|groups| - 1], groups[|groups| - 1])
  }

  /** The word table built from `groups` (`_WORD_TO_GROUP`). */
  function BuildTable(groups: seq<seq<string>>): WordTable
    requires WellFormed(groups)
  {
    InsertGroups(EmptyTable, groups)
  }

  /** The construction at module load: for every group, for every word, map
      the lower-cased word to the rest of its group. */
  method BuildWordTable(groups: seq<seq<string>>) returns (t: WordTable)
    requires WellFormed(groups)
    ensures t == BuildTable(groups)
  {
    t := EmptyTable;
    for i := 0 to |groups|
      invariant WellFormed(groups[..i])
      invariant t == InsertGroups(EmptyTable, groups[..i])
    {
      assert groups[..i + 1][..i] == groups[..i] && groups[..i + 1][i] == groups[i];
      assert WellFormed(groups[..i + 1]);
      t := InsertGroupWords(t, groups[i]);
    }
    assert groups[..|groups|] == groups;
  }

  /** The inner loop of the construction, over the words of one group. */
  method InsertGroupWords(t0: WordTable, group: seq<string>) returns (t: WordTable)
    requires ValidTable(t0) && NonEmptyWords(group)
    ensures t == InsertWords(t0, group, group)
  {
    t := t0;
    for j := 0 to |group|
      invariant ValidTable(t) && t == InsertWords(t0, group, group[..j])
    {
      var word := group[j];
      InsertWordsStep(t0, group, j);
      t := Insert(t, Lower(word), Without(group, word));
    }
    assert group[..|group|] == group;
  }

  lemma InsertWordsStep(t0: WordTable, group: seq<string>, j: nat)
    requires ValidTable(t0) && NonEmptyWords(group)
    requires j < |group|
    ensures Lower(group[j]) != []
    ensures InsertWords(t0, group, group[..j + 1])
         == Insert(InsertWords(t0, group, group[..j]), Lower(group[j]), Without(group, group[j]))
  {
    assert group[..j + 1][..j] == group[..j];
  }

  // ---------------------------------------------------------------- what the table holds

  /** A key the words leave alone keeps its entry. */
  lemma {:induction false} InsertWordsFrame(t: WordTable, group: seq<string>, words: seq<string>, k: string)
    requires ValidTable(t) && NonEmptyWords(words)
    requires forall w :: w in words ==> Lower(w) != k
    ensures k in InsertWords(t, group, words).synonyms <==> k in t.synonyms
    ensures k in t.synonyms ==> InsertWords(t, group, words).synonyms[k] == t.synonyms[k]
  {
    if words != [] {
      var init := words[..|words| - 1];
      assert forall x :: x in init ==> x in words;
      InsertWordsFrame(t, group, init, k);
    }
  }

  /** After the words of a group, a word that is the only one of the group
      with its lower-case form maps to its group without itself. */
  lemma {:induction false} InsertWordsSets(t: WordTable, group: seq<string>, words: seq<string>, a: string)
    requires ValidTable(t) && NonEmptyWords(words)
    requires a in words && forall w :: w in words && Lower(w) == Lower(a) ==> w == a
    ensures Lower(a) in InsertWords(t, group, words).synonyms
    ensures InsertWords(t, group, words).synonyms[Lower(a)] == Without(group, a)
  {
    var init := words[..|words| - 1];
    var w := words[|words| - 1];
    assert forall x :: x in init ==> x in words;
    assert words == init + [w];
    if w != a {
      assert a in init;
      InsertWordsSets(t, group, init, a);
    }
  }

  lemma {:induction false} InsertGroupsFrame(t: WordTable, groups: seq<seq<string>>, k: string)
    requires ValidTable(t) && WellFormed(groups)
    requires forall g :: 0 <= g < |groups| ==> forall w :: w in groups[g] ==> Lower(w) != k
    ensures k in InsertGroups(t, groups).synonyms <==> k in t.synonyms
    ensures k in t.synonyms ==> InsertGroups(t, groups).synonyms[k] == t.synonyms[k]
  {
    if groups != [] {
      var n := |groups| - 1;
      var init := groups[..n];
      assert forall g :: 0 <= g < |init| ==> init[g] == groups[g];
      InsertGroupsFrame(t, init, k);
      InsertWordsFrame(InsertGroups(t, init), groups[n], groups[n], k);
    }
  }

  /** The table entry of a word: when group `g` is the last group holding a
      word with the lower-case form of `a`, and `a` is the only such word in
      it, the entry of `Lower(a)` is group `g` without `a`. In particular a
      word listed in several groups takes its synonyms from the last one. */
  lemma {:induction false} TableEntry(groups: seq<seq<string>>, g: nat, a: string)
    requires WellFormed(groups) && g < |groups| && a in groups[g]
    requires forall w :: w in groups[g] && Lower(w) == Lower(a) ==> w == a
    requires forall h :: g < h < |groups| ==> forall w :: w in groups[h] ==> Lower(w) != Lower(a)
    ensures Lower(a) in BuildTable(groups).synonyms
    ensures BuildTable(groups).synonyms[Lower(a)] == Without(groups[g], a)
  {
    TableEntryFrom(EmptyTable, groups, g, a);
  }

  /** Removing the second word of a five-word group that holds it once. */
  lemma WithoutSecond(x0: string, a: string, x2: string, x3: string, x4: string)
    requires a != x0 && a != x2 && a != x3 && a != x4
    ensures Without([x0, a, x2, x3, x4], a) == [x0, x2, x3, x4]
  {
    var tail := [x2, x3, x4];
    assert Without(tail, a) == tail by {
      assert tail[1..] == [x3, x4] && tail[1..][1..] == [x4];
      assert Without([x4], a) == [x4];
    }
    assert [x0, a, x2, x3, x4][1..] == [a] + tail;
    assert ([a] + tail)[1..] == tail;
  }

  /** The table entry of the second word of a five-word group, under the
      conditions of `TableEntry`. */
  lemma SecondWordEntry(groups: seq<seq<string>>, g: nat, x0: string, a: string, x2: string, x3: string, x4: string)
    requires WellFormed(groups) && g < |groups| && groups[g] == [x0, a, x2, x3, x4]
    requires a != x0 && a != x2 && a != x3 && a != x4 && Lower(a) == a
    requires forall w :: w in groups[g] && Lower(w) == Lower(a) ==> w == a
    requires forall h :: g < h < |groups| ==> forall w :: w in groups[h] ==> Lower(w) != Lower(a)
    ensures a in BuildTable(groups).synonyms
    ensures BuildTable(groups).synonyms[a] == [x0, x2, x3, x4]
  {
    TableEntry(groups, g, a);
    WithoutSecond(x0, a, x2, x3, x4);
  }

  /** A word whose lower-case form is that of a word starting with 預
      starts with 預 itself: lower-casing only touches A to Z. */
  lemma LowerKeepsBudget(w: string, a: string)
    requires w != [] && a != [] && a[0] == '預' && Lower(w) == Lower(a)
    ensures w[0] == '預'
  {
    assert Lower(w)[0] == LowerChar(w[0]);
  }

  /** No group after the 經費 group holds a word that lower-cases to "預算". */
  lemma BudgetNotLater()
    ensures forall h :: 16 < h < |SynonymGroups| ==>
      forall w :: w in SynonymGroups[h] ==> Lower(w) != Lower("預算")
  {
    SynonymGroupsWellFormed();
    forall h, w | 16 < h < |SynonymGroups| && w in SynonymGroups[h] ensures Lower(w) != Lower("預算") {
      assert w[0] != '預';
      if Lower(w) == Lower("預算") {
        LowerKeepsBudget(w, "預算");
      }
    }
  }

  /** The 經費 group lists "預算" once and no other word of the same
      lower-case form. */
  lemma BudgetOnceInGroup()
    ensures SynonymGroups[16] == ["經費", "預算", "費用", "成本", "支出"]
    ensures forall w :: w in SynonymGroups[16] && Lower(w) == Lower("預算") ==> w == "預算"
  {
    forall w | w in SynonymGroups[16] && Lower(w) == Lower("預算") ensures w == "預算" {
      LowerKeepsBudget(w, "預算");
    }
  }

  /** "預算" takes its synonyms from the 經費 group, the last group that
      lists it: 經費, 費用, 成本 and 支出, and not 補助. */
  lemma BudgetEntry()
    ensures WellFormed(SynonymGroups)
    ensures "預算" in BuildTable(SynonymGroups).synonyms
    ensures BuildTable(SynonymGroups).synonyms["預算"] == ["經費", "費用", "成本", "支出"]
  {
    var a := "預算";
    assert Lower(a) == a;
    SynonymGroupsWellFormed();
    BudgetNotLater();
    BudgetOnceInGroup();
    var g := SynonymGroups[16];
    assert g[0][0] != a[0] && g[2][0] != a[0] && g[3][0] != a[0] && g[4][0] != a[0];
    SecondWordEntry(SynonymGroups, 16, g[0], a, g[2], g[3], g[4]);
  }

  lemma {:induction false} TableEntryFrom(t: WordTable, groups: seq<seq<string>>, g: nat, a: string)
    requires ValidTable(t) && WellFormed(groups) && g < |groups| && a in groups[g]
    requires forall w :: w in groups[g] && Lower(w) == Lower(a) ==> w == a
    requires forall h :: g < h < |groups| ==> forall w :: w in groups[h] ==> Lower(w) != Lower(a)
    ensures Lower(a) in InsertGroups(t, groups).synonyms
    ensures InsertGroups(t, groups).synonyms[Lower(a)] == Without(groups[g], a)
  {
    var n := |groups| - 1;
    var init := groups[..n];
    assert forall h :: 0 <= h < |init| ==> init[h] == groups[h];
    if g == n {
      InsertWordsSets(InsertGroups(t, init), groups[n], groups[n], a);
    } else {
      TableEntryFrom(t, init, g, a);
      InsertWordsFrame(InsertGroups(t, init), groups[n], groups[n], Lower(a));
    }
  }

  /** Synonymy is two-way: two different words of one group, each of which
      occurs (up to case) in no other group and nowhere else in its own group,
      list each other as synonyms. */
  lemma Bidirectional(groups: seq<seq<string>>, g: nat, a: string, b: string)
    requires WellFormed(groups) && g < |groups| && a in groups[g] && b in groups[g] && a != b
    requires forall w :: w in groups[g] && Lower(w) == Lower(a) ==> w == a
    requires forall w :: w in groups[g] && Lower(w) == Lower(b) ==> w == b
    requires forall h :: 0 <= h < |groups| && h != g ==>
               forall w :: w in groups[h] ==> Lower(w) != Lower(a) && Lower(w) != Lower(b)
    ensures Lower(a) in BuildTable(groups).synonyms && b in BuildTable(groups).synonyms[Lower(a)]
    ensures Lower(b) in BuildTable(groups).synonyms && a in BuildTable(groups).synonyms[Lower(b)]
  {
    TableEntry(groups, g, a);
    TableEntry(groups, g, b);
  }

  /** Every key of the table is the lower-case form of some word. */
  lemma {:induction false} TableKeysAreWords(groups: seq<seq<string>>, k: string)
    requires WellFormed(groups) && k in BuildTable(groups).synonyms
    ensures exists h, w :: 0 <= h < |groups| && w in groups[h] && Lower(w) == k
  {
    if forall h, w :: 0 <= h < |groups| && w in groups[h] ==> Lower(w) != k {
      InsertGroupsFrame(EmptyTable, groups, k);
      assert false;
    }
  }

  // ---------------------------------------------------------------- expand_query

  /** The first word, in group order, whose lower-case form is `k`: the
      original casing `expand_query` tries first. */
  function OriginalCase(groups: seq<seq<string>>, k: string): (r: Option<string>)
    ensures r.Some? ==> Lower(r.value) == k
    ensures r.Some? ==> exists h :: 0 <= h < |groups| && r.value in groups[h]
    ensures r.None? ==> forall h, w :: 0 <= h < |groups| && w in groups[h] ==> Lower(w) != k
  {
    if groups == [] then None
    else
      match FirstInGroup(groups[0], k)
      case Some(w) => Some(w)
      case None =>
        var r := OriginalCase(groups[1..], k);
        assert forall h :: 1 <= h < |groups| ==> groups[h] == groups[1..][h - 1];
        r
  }

  /** The first word of one group whose lower-case form is `k`. */
  function FirstInGroup(group: seq<string>, k: string): (r: Option<string>)
    ensures r.Some? ==> r.value in group && Lower(r.value) == k
    ensures r.Some? ==> exists i :: 0 <= i < |group| && group[i] == r.value
                          && forall j :: 0 <= j < i ==> Lower(group[j]) != k
    ensures r.None? ==> forall w :: w in group ==> Lower(w) != k
  {
    if group == [] then None
    else if Lower(group[0]) == k then Some(group[0])
    else
      var r := FirstInGroup(group[1..], k);
      if r.Some? then
        var i :| 0 <= i < |group[1..]| && group[1..][i] == r.value
                 && forall j :: 0 <= j < i ==> Lower(group[1..][j]) != k;
        assert group[i + 1] == r.value;
        assert forall j :: 1 <= j < i + 1 ==> group[j] == group[1..][j - 1];
        r
      else r
  }

  /** The search loop of `expand_query` for the original casing of `k`. */
  method FindOriginalCase(groups: seq<seq<string>>, k: string) returns (r: Option<string>)
    requires WellFormed(groups) && k != []
    ensures r == OriginalCase(groups, k)
  {
    r := None;
    var h := 0;
    while h < |groups|
      invariant 0 <= h <= |groups|
      invariant OriginalCase(groups, k) == OriginalCase(groups[h..], k)
    {
      var group := groups[h];
      var i := 0;
      while i < |group|
        invariant 0 <= i <= |group|
        invariant FirstInGroup(group, k) == FirstInGroup(group[i..], k)
      {
        if Lower(group[i]) == k {
          assert group[i..][0] == group[i];
          r := Some(group[i]);
          assert OriginalCase(groups[h..], k) == r by {
            assert groups[h..][0] == group;
          }
          return;
        }
        assert group[i..][1..] == group[i + 1..];
        i := i + 1;
      }
      assert groups[h..][0] == group && groups[h..][1..] == groups[h + 1..];
      h := h + 1;
    }
  }

  /** The variant of `query` that substitutes `syn` for the table word `k`:
      in the original casing when that casing occurs in the query, otherwise
      in the lower-cased query. Every occurrence is replaced. */
  function Variant(groups: seq<seq<string>>, query: string, k: string, syn: string): string
    requires k != []
  {
    match OriginalCase(groups, k)
    case Some(orig) =>
      if Contains(query, orig) then Replace(query, orig, syn) else Replace(Lower(query), k, syn)
    case None => Replace(Lower(query), k, syn)
  }

  function VariantsFor(groups: seq<seq<string>>, query: string, k: string, syns: seq<string>): (r: seq<string>)
    requires k != []
    ensures |r| == |syns|
    ensures forall i :: 0 <= i < |syns| ==> r[i] == Variant(groups, query, k, syns[i])
  {
    seq(|syns|, i requires 0 <= i < |syns| => Variant(groups, query, k, syns[i]))
  }

  /** All candidate variants, table key by table key, before de-duplication. */
  function Candidates(groups: seq<seq<string>>, t: WordTable, query: string, keys: seq<string>): seq<string>
    requires forall k :: k in keys ==> k in t.synonyms && k != []
  {
    if keys == [] then []
    else
      var init := keys[..|keys| - 1];
      var k := keys[|keys| - 1];
      assert forall x :: x in init ==> x in keys;
      Candidates(groups, t, query, init)
        + (if Contains(Lower(query), k) then VariantsFor(groups, query, k, t.synonyms[k]) else [])
  }

  /** One more table word adds its variants when the query contains it. */
  lemma CandidatesStep(groups: seq<seq<string>>, t: WordTable, query: string, init: seq<string>, k: string)
    requires forall x :: x in init ==> x in t.synonyms && x != []
    requires k in t.synonyms && k != []
    ensures Candidates(groups, t, query, init + [k])
              == Candidates(groups, t, query, init)
                 + (if Contains(Lower(query), k) then VariantsFor(groups, query, k, t.synonyms[k]) else [])
  {
    assert (init + [k])[..|init|] == init;
  }

  /** What `expand_query` returns: the query, then every new candidate. */
  function Expansion(groups: seq<seq<string>>, query: string): seq<string>
    requires WellFormed(groups)
  {
    var t := BuildTable(groups);
    AddAll([query], Candidates(groups, t, query, t.keys))
  }

  /** `expand_query`. `table` is the module's word table, built from `groups`. */
  method ExpandQuery(groups: seq<seq<string>>, table: WordTable, query: string) returns (expanded: seq<string>)
    requires WellFormed(groups) && table == BuildTable(groups)
    ensures expanded == Expansion(groups, query)
    ensures |expanded| >= 1 && expanded[0] == query && NoDups(expanded)
  {
    assert ValidTable(table);
    assert forall k :: k in table.keys ==> k in table.synonyms && k != [];
    expanded := ExpandKeys(groups, table, query);
    ExpansionShape(groups, query);
  }

  /** The outer loop of `expand_query`: each table word the lower-cased
      query contains contributes its variants. */
  method ExpandKeys(groups: seq<seq<string>>, table: WordTable, query: string) returns (expanded: seq<string>)
    requires WellFormed(groups)
    requires forall k :: k in table.keys ==> k in table.synonyms && k != []
    ensures expanded == AddAll([query], Candidates(groups, table, query, table.keys))
  {
    var keys := table.keys;
    expanded := [query];
    var queryLower := Lower(query);
    for i := 0 to |keys|
      invariant forall k :: k in keys[..i] ==> k in table.synonyms && k != []
      invariant expanded == AddAll([query], Candidates(groups, table, query, keys[..i]))
    {
      var k := keys[i];
      assert keys[..i + 1] == keys[..i] + [k];
      assert k in keys;
      CandidatesStep(groups, table, query, keys[..i], k);
      ghost var before := Candidates(groups, table, query, keys[..i]);
      if Contains(queryLower, k) {
        var originalCase := FindOriginalCase(groups, k);
        ghost var vs := VariantsFor(groups, query, k, table.synonyms[k]);
        expanded := AddVariants(groups, query, k, table.synonyms[k], originalCase, expanded);
        AddAllConcat([query], before, vs);
      } else {
        assert before + [] == before;
      }
    }
    assert keys[..|keys|] == keys;
  }

  /** The expansion starts with the query itself and lists no variant twice. */
  lemma ExpansionShape(groups: seq<seq<string>>, query: string)
    requires WellFormed(groups)
    ensures |Expansion(groups, query)| >= 1 && Expansion(groups, query)[0] == query
    ensures NoDups(Expansion(groups, query))
  {
    var r := Expansion(groups, query);
    assert r[..1] == [query];
    assert NoDups([query]);
  }

  /** The inner loop of `expand_query`: one variant per synonym of the table
      word `k`, each added when it is new. */
  method AddVariants(groups: seq<seq<string>>, query: string, k: string, synonyms: seq<string>,
                     originalCase: Option<string>, acc: seq<string>) returns (expanded: seq<string>)
    requires k != [] && originalCase == OriginalCase(groups, k)
    ensures expanded == AddAll(acc, VariantsFor(groups, query, k, synonyms))
  {
    expanded := acc;
    var queryLower := Lower(query);
    for j := 0 to |synonyms|
      invariant expanded == AddAll(acc, VariantsFor(groups, query, k, synonyms[..j]))
    {
      var syn := synonyms[j];
      var newQuery;
      if originalCase.Some? && Contains(query, originalCase.value) {
        newQuery := Replace(query, originalCase.value, syn);
      } else {
        newQuery := Replace(queryLower, k, syn);
      }
      assert newQuery == Variant(groups, query, k, syn);
      ghost var done := VariantsFor(groups, query, k, synonyms[..j]);
      ghost var next := VariantsFor(groups, query, k, synonyms[..j + 1]);
      assert next[..|next| - 1] == done && next[|next| - 1] == newQuery;
      if newQuery !in expanded {
        expanded := expanded + [newQuery];
      }
    }
    assert synonyms[..|synonyms|] == synonyms;
  }

  /** A query that contains no table word is returned alone. */
  lemma NoMatchAlone(groups: seq<seq<string>>, query: string)
    requires WellFormed(groups)
    requires forall k :: k in BuildTable(groups).keys ==> !Contains(Lower(query), k)
    ensures Expansion(groups, query) == [query]
  {
    var t := BuildTable(groups);
    NoCandidates(groups, t, query, t.keys);
  }

  lemma {:induction false} NoCandidates(groups: seq<seq<string>>, t: WordTable, query: string, keys: seq<string>)
    requires forall k :: k in keys ==> k in t.synonyms && k != []
    requires forall k :: k in keys ==> !Contains(Lower(query), k)
    ensures Candidates(groups, t, query, keys) == []
  {
    if keys != [] {
      var init := keys[..|keys| - 1];
      assert forall x :: x in init ==> x in keys;
      NoCandidates(groups, t, query, init);
    }
  }

  /** The variants are exactly the substitutions for the table words the
      lower-cased query contains, one per co-member. */
  lemma {:induction false} CandidatesExactly(groups: seq<seq<string>>, t: WordTable, query: string, keys: seq<string>, v: string)
    requires forall k :: k in keys ==> k in t.synonyms && k != []
    ensures v in Candidates(groups, t, query, keys) <==>
      exists k, syn :: k in keys && k != [] && Contains(Lower(query), k) && syn in t.synonyms[k]
                       && v == Variant(groups, query, k, syn)
  {
    if keys != [] {
      var init := keys[..|keys| - 1];
      var k := keys[|keys| - 1];
      assert forall x :: x in init ==> x in keys;
      CandidatesExactly(groups, t, query, init, v);
      if Contains(Lower(query), k) {
        var syns := t.synonyms[k];
        if v in VariantsFor(groups, query, k, syns) {
          var i :| 0 <= i < |syns| && VariantsFor(groups, query, k, syns)[i] == v;
          assert syns[i] in syns;
        }
        forall syn | syn in syns && v == Variant(groups, query, k, syn)
          ensures v in VariantsFor(groups, query, k, syns)
        {
          var i :| 0 <= i < |syns| && syns[i] == syn;
          assert VariantsFor(groups, query, k, syns)[i] == v;
        }
      }
    }
  }

  /** Membership in the expansion, both ways. */
  lemma ExpansionMembers(groups: seq<seq<string>>, query: string, v: string)
    requires WellFormed(groups)
    ensures v in Expansion(groups, query) <==>
      v == query ||
      exists k, syn :: k in BuildTable(groups).keys && k != [] && Contains(Lower(query), k)
                       && syn in BuildTable(groups).synonyms[k]
                       && v == Variant(groups, query, k, syn)
  {
    var t := BuildTable(groups);
    var c := Candidates(groups, t, query, t.keys);
    CandidatesExactly(groups, t, query, t.keys, v);
    var r := AddAll([query], c);
    if v in r {
      var i :| 0 <= i < |r| && r[i] == v;
      assert v in [query] || v in c;
    }
    if v in c {
      var i :| 0 <= i < |c| && c[i] == v;
      assert c[i] in r;
    }
    assert r[..1] == [query];
    assert r[0] == query;
  }

  // ---------------------------------------------------------------- get_expanded_keywords

  /** The keywords of one query: its white-space separated words, lower-cased. */
  function QueryKeywords(q: string): (r: seq<string>)
    ensures forall i :: 0 <= i < |r| ==> r[i] != [] && Lower(r[i]) == r[i]
    ensures forall i :: 0 <= i < |r| ==> forall c :: c in r[i] ==> !IsSpace(c)
  {
    var ws := Words(q);
    var r := seq(|ws|, i requires 0 <= i < |ws| => Lower(ws[i]));
    assert forall i :: 0 <= i < |ws| ==> forall c :: c in Lower(ws[i]) ==> !IsSpace(c) by {
      forall i, c | 0 <= i < |ws| && c in Lower(ws[i]) ensures !IsSpace(c) {
        var j :| 0 <= j < |ws[i]| && Lower(ws[i])[j] == c;
        assert ws[i][j] in ws[i];
      }
    }
    r
  }

  /** The keywords of all queries, query by query. */
  function AllKeywords(qs: seq<string>): (r: seq<string>)
    ensures forall x :: x in r ==> x != [] && Lower(x) == x
  {
    if qs == [] then []
    else AllKeywords(qs[..|qs| - 1]) + QueryKeywords(qs[|qs| - 1])
  }

  /** `get_expanded_keywords`: the keywords of all expansions, each once, in
      the order of their first occurrence. */
  method ExpandedKeywords(groups: seq<seq<string>>, table: WordTable, query: string) returns (r: seq<string>)
    requires WellFormed(groups) && table == BuildTable(groups)
    ensures r == Dedup(AllKeywords(Expansion(groups, query)))
    ensures NoDups(r)
    ensures forall i :: 0 <= i < |r| ==> r[i] != [] && Lower(r[i]) == r[i]
  {
    var expandedQueries := ExpandQuery(groups, table, query);
    var keywords: seq<string> := [];
    for i := 0 to |expandedQueries|
      invariant keywords == AllKeywords(expandedQueries[..i])
    {
      assert expandedQueries[..i + 1][..i] == expandedQueries[..i];
      keywords := keywords + QueryKeywords(expandedQueries[i]);
    }
    assert expandedQueries[..|expandedQueries|] == expandedQueries;
    r := Dedup(keywords);
    forall i | 0 <= i < |r| ensures r[i] != [] && Lower(r[i]) == r[i] {
      assert r[i] in keywords;
    }
  }
}
