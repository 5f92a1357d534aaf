/**
  The rules inside the MCP tools of the server: the category of a knowledge
  base path, the file filter and result cap of `search_knowledge_base`, the
  checklist scoring of `check_proposal` and the limit and subsidy rules of
  `calculate_budget`. File reading, globbing and the Markdown rendering of
  the answers are left to the caller: globbing is a parameter and a file is
  given by its relative path and, when it could be read, its text.
 */
module Server {
  import opened Wrappers
  import opened Text

  // ---------------------------------------------------------------- get_category_from_path

  /** The path fragments `get_category_from_path` looks for, in the order it
      tries them, each with its label. */
  const CategoryRules: seq<(string, string)> := [
    ("methodology", "方法論"),
    ("faq", "常見問題"),
    ("checklist", "檢核清單"),
    ("case_studies", "案例研究"),
    ("template", "範本"),
    ("quick_start", "快速啟動")
  ]

  const OtherCategory := "其他"

  /** The label of the first rule whose fragment occurs in `path`, or
      "其他" when none does. */
  function Classify(path: string, rules: seq<(string, string)>): string {
    if rules == [] then OtherCategory
    else if Contains(path, rules[0].0) then rules[0].1
    else Classify(path, rules[1..])
  }

  /** `get_category_from_path`: the if-chain over `CategoryRules`. */
  function CategoryFromPath(path: string): string {
    Classify(path, CategoryRules)
  }

  /** The first rule whose fragment occurs decides the label. */
  lemma {:induction false} ClassifyFirst(path: string, rules: seq<(string, string)>, k: nat)
    requires k < |rules| && Contains(path, rules[k].0)
    requires forall j :: 0 <= j < k ==> !Contains(path, rules[j].0)
    ensures Classify(path, rules) == rules[k].1
  {
    if k > 0 {
      assert !Contains(path, rules[0].0);
      ClassifyFirst(path, rules[1..], k - 1);
    }
  }

  /** With no fragment occurring the label is "其他"; when no rule carries
      that label, only then. */
  lemma {:induction false} ClassifyNone(path: string, rules: seq<(string, string)>)
    requires forall j :: 0 <= j < |rules| ==> rules[j].1 != OtherCategory
    ensures Classify(path, rules) == OtherCategory <==> forall j :: 0 <= j < |rules| ==> !Contains(path, rules[j].0)
  {
    if rules != [] {
      ClassifyNone(path, rules[1..]);
      assert forall j :: 1 <= j < |rules| ==> rules[j] == rules[1..][j - 1];
    }
  }

  /** The path category is the label of the first fragment found, in the
      order methodology, faq, checklist, case_studies, template,
      quick_start, and "其他" exactly when no fragment occurs. */
  lemma CategoryFromPathMeaning(path: string, k: nat)
    requires k < |CategoryRules| && Contains(path, CategoryRules[k].0)
    requires forall j :: 0 <= j < k ==> !Contains(path, CategoryRules[j].0)
    ensures CategoryFromPath(path) == CategoryRules[k].1 != OtherCategory
  {
    ClassifyFirst(path, CategoryRules, k);
  }

  lemma OtherCategoryExactly(path: string)
    ensures CategoryFromPath(path) == OtherCategory <==>
              forall j :: 0 <= j < |CategoryRules| ==> !Contains(path, CategoryRules[j].0)
  {
    ClassifyNone(path, CategoryRules);
  }

  // ---------------------------------------------------------------- search_knowledge_base

  /** The glob pattern of each search category. */
  const SearchDirs: map<string, string> := map[
    "methodology" := "references/methodology_*.md",
    "faq" := "faq/*.md",
    "checklist" := "checklists/*.md",
    "case_study" := "examples/case_studies/*.md",
    "template" := "templates/*.md",
    "all" := "**/*.md"
  ]

  function SearchPattern(category: string): string {
    if category in SearchDirs then SearchDirs[category] else "**/*.md"
  }

  /** An unknown category searches like "all". */
  lemma UnknownCategorySearchesAll(category: string)
    requires category !in SearchDirs
    ensures SearchPattern(category) == SearchPattern("all") == "**/*.md"
  {
  }

  /** A file found by the glob: its path relative to the project root and,
      when it can be read, its text. */
  datatype FileEntry = FileEntry(path: string, content: Option<string>)

  /** One listed file. */
  datatype Hit = Hit(path: string, name: string, category: string)

  /** How much of a file is read to judge it. */
  const ReadLength := 500

  /** The lower-cased query occurs in the lower-cased file name or in the
      lower-cased first 500 characters of the text. */
  predicate Matches(query: string, path: string, content: string) {
    || Contains(Lower(BaseName(path)), Lower(query))
    || Contains(Lower(Take(content, ReadLength)), Lower(query))
  }

  function HitOf(path: string): Hit {
    Hit(path, BaseName(path), CategoryFromPath(path))
  }

  /** A readable file that matches the query. */
  predicate Listed(f: FileEntry, query: string) {
    f.content.Some? && Matches(query, f.path, f.content.value)
  }

  /** The listed files, in glob order. */
  function Relevant(files: seq<FileEntry>, query: string): (r: seq<Hit>)
    ensures |r| <= |files|
  {
    if files == [] then []
    else
      var init := files[..|files| - 1];
      var f := files[|files| - 1];
      Relevant(init, query) + (if Listed(f, query) then [HitOf(f.path)] else [])
  }

  /** A file is listed exactly when it is readable and matches. */
  lemma RelevantExactly(files: seq<FileEntry>, query: string, h: Hit)
    ensures h in Relevant(files, query) <==>
              exists i :: 0 <= i < |files| && Listed(files[i], query) && h == HitOf(files[i].path)
  {
    if h in Relevant(files, query) {
      RelevantSound(files, query, h);
    }
    if exists i :: 0 <= i < |files| && Listed(files[i], query) && h == HitOf(files[i].path) {
      var i :| 0 <= i < |files| && Listed(files[i], query) && h == HitOf(files[i].path);
      RelevantComplete(files, query, i);
    }
  }

  /** Every readable file that matches is listed. */
  lemma {:induction false} RelevantComplete(files: seq<FileEntry>, query: string, i: nat)
    requires i < |files| && Listed(files[i], query)
    ensures HitOf(files[i].path) in Relevant(files, query)
  {
    var n := |files| - 1;
    if i < n {
      assert files[..n][i] == files[i];
      RelevantComplete(files[..n], query, i);
    }
  }

  /** Every listed hit comes from a readable file that matches. */
  lemma {:induction false} RelevantSound(files: seq<FileEntry>, query: string, h: Hit)
    requires h in Relevant(files, query)
    ensures exists i :: 0 <= i < |files| && Listed(files[i], query) && h == HitOf(files[i].path)
  {
    var n := |files| - 1;
    var init := files[..n];
    if h in Relevant(init, query) {
      RelevantSound(init, query, h);
      var i :| 0 <= i < n && Listed(init[i], query) && h == HitOf(init[i].path);
      assert files[i] == init[i];
    } else {
      assert Listed(files[n], query) && h == HitOf(files[n].path);
    }
  }

  /** The filter loop of `search_knowledge_base`; unreadable files are skipped. */
  method FilterFiles(files: seq<FileEntry>, query: string) returns (hits: seq<Hit>)
    ensures hits == Relevant(files, query)
  {
    hits := [];
    for i := 0 to |files|
      invariant hits == Relevant(files[..i], query)
    {
      assert files[..i + 1][..i] == files[..i];
      var f := files[i];
      match f.content {
        case None =>
        case Some(text) =>
          var queryLower := Lower(query);
          if Contains(Lower(BaseName(f.path)), queryLower) || Contains(Lower(Take(text, ReadLength)), queryLower) {
            hits := hits + [HitOf(f.path)];
          }
      }
    }
    assert files[..|files|] == files;
  }

  /** At most this many files are rendered. */
  const MaxShown := 10

  /** The answer of `search_knowledge_base`: nothing found, or the number of
      files found, the files shown and, when some are not shown, how many. */
  datatype SearchOutcome = NotFound | Found(count: nat, shown: seq<Hit>, omitted: Option<nat>)

  function Present(hits: seq<Hit>): (r: SearchOutcome)
    ensures r.Found? ==> |r.shown| + r.omitted.GetOr(0) == r.count == |hits|
    ensures r.Found? ==> |r.shown| <= MaxShown && r.shown == hits[..|r.shown|]
    ensures r.Found? && r.omitted.Some? ==> r.omitted.value > 0 && |r.shown| == MaxShown
  {
    if hits == [] then NotFound
    else if |hits| > MaxShown then Found(|hits|, hits[..MaxShown], Some(|hits| - MaxShown))
    else Found(|hits|, hits, None)
  }

  /** `search_knowledge_base`: the category picks a glob pattern, the glob
      gives the files, and the readable matching ones are listed, ten at most. */
  method SearchKnowledgeBase(query: string, category: string, glob: string -> seq<FileEntry>)
    returns (outcome: SearchOutcome)
    ensures outcome == Present(Relevant(glob(SearchPattern(category)), query))
    ensures outcome.NotFound? <==> Relevant(glob(SearchPattern(category)), query) == []
  {
    var pattern := SearchPattern(category);
    var files := glob(pattern);
    var hits := FilterFiles(files, query);
    outcome := Present(hits);
  }

  // ---------------------------------------------------------------- check_proposal

  datatype CheckItem = CheckItem(name: string, keywords: seq<string>)
  datatype CheckCategory = CheckCategory(name: string, items: seq<CheckItem>)

  /** The Phase 1 checklist: eight categories of three items each. */
  const Phase1Checks: seq<CheckCategory> := [
    CheckCategory("基本資訊", [
      CheckItem("公司名稱", ["公司", "股份有限", "有限公司"]),
      CheckItem("計畫名稱", ["計畫名稱", "計畫題目"]),
      CheckItem("計畫期程", ["期程", "月", "年"])]),
    CheckCategory("問題陳述", [
      CheckItem("產業痛點描述", ["痛點", "問題", "挑戰", "困難", "需求"]),
      CheckItem("現況說明", ["現況", "目前", "現有", "傳統"]),
      CheckItem("問題量化數據", ["億", "萬", "%", "比例", "統計"])]),
    CheckCategory("創新內容", [
      CheckItem("創新點描述", ["創新", "突破", "獨創", "首創", "原創"]),
      CheckItem("與現有技術差異", ["差異", "不同", "優於", "相較", "比較"]),
      CheckItem("技術優勢說明", ["優勢", "優點", "特色", "領先"])]),
    CheckCategory("市場分析", [
      CheckItem("目標市場描述", ["目標市場", "客戶", "TA", "使用者"]),
      CheckItem("市場規模（TAM/SAM/SOM）", ["TAM", "SAM", "SOM", "市場規模", "產值"]),
      CheckItem("商業模式", ["商業模式", "獲利", "營收", "收費"])]),
    CheckCategory("技術可行性", [
      CheckItem("技術方案說明", ["技術", "方法", "架構", "系統"]),
      CheckItem("前期驗證成果", ["驗證", "測試", "實驗", "前期", "雛型"]),
      CheckItem("風險評估", ["風險", "挑戰", "困難"])]),
    CheckCategory("團隊介紹", [
      CheckItem("團隊成員", ["團隊", "成員", "人員"]),
      CheckItem("相關經驗", ["經驗", "經歷", "背景", "專長"]),
      CheckItem("分工規劃", ["分工", "負責", "職責"])]),
    CheckCategory("執行計畫", [
      CheckItem("工作項目", ["工作", "項目", "任務"]),
      CheckItem("時程規劃", ["時程", "進度", "甘特", "月"]),
      CheckItem("查核點", ["查核", "里程碑", "KPI", "指標"])]),
    CheckCategory("經費規劃", [
      CheckItem("人事費", ["人事費", "薪資", "人力"]),
      CheckItem("材料費/設備費", ["材料", "設備", "器材", "耗材"]),
      CheckItem("其他費用", ["委託", "差旅", "管理費"])])
  ]

  datatype ItemResult = ItemResult(name: string, found: bool)
  datatype CategoryResult = CategoryResult(name: string, items: seq<ItemResult>)

  /** `any(keyword in content for keyword in keywords)`, case-sensitive. */
  function AnyKeyword(content: string, keywords: seq<string>): (found: bool)
    ensures found <==> exists k :: 0 <= k < |keywords| && Contains(content, keywords[k])
  {
    if keywords == [] then false
    else Contains(content, keywords[0]) || AnyKeyword(content, keywords[1..])
  }

  /** The result of checking one category. */
  function Judge(content: string, c: CheckCategory): CategoryResult
  {
    CategoryResult(c.name, seq(|c.items|, i requires 0 <= i < |c.items| =>
      ItemResult(c.items[i].name, AnyKeyword(content, c.items[i].keywords))))
  }

  /** The number of found items among item results. */
  function FoundIn(items: seq<ItemResult>): (n: nat)
    ensures n <= |items|
  {
    if items == [] then 0
    else FoundIn(items[..|items| - 1]) + (if items[|items| - 1].found then 1 else 0)
  }

  /** The number of found items over all categories. */
  function FoundCount(results: seq<CategoryResult>): nat {
    if results == [] then 0
    else FoundCount(results[..|results| - 1]) + FoundIn(results[|results| - 1].items)
  }

  /** The number of items over all categories. */
  function ResultCount(results: seq<CategoryResult>): nat {
    if results == [] then 0
    else ResultCount(results[..|results| - 1]) + |results[|results| - 1].items|
  }

  /** Eight categories of three items each. */
  lemma Phase1Shape()
    ensures |Phase1Checks| == 8
    ensures forall c :: 0 <= c < |Phase1Checks| ==> |Phase1Checks[c].items| == 3
  {
  }

  /** When every category has `n` results there are `n` per category in all. */
  lemma {:induction false} ResultCountUniform(results: seq<CategoryResult>, n: nat)
    requires forall c :: 0 <= c < |results| ==> |results[c].items| == n
    ensures ResultCount(results) == n * |results|
  {
    if results != [] {
      ResultCountUniform(results[..|results| - 1], n);
    }
  }

  /** `check_proposal`: the Phase 1 checklist is applied whatever `phase`
      says; there are 24 items and `passed` of them are found, and the
      completeness is the whole-number percentage of found items. */
  method CheckProposal(content: string, phase: string)
    returns (results: seq<CategoryResult>, total: nat, passed: nat, percent: nat)
    ensures |results| == |Phase1Checks|
    ensures forall c :: 0 <= c < |results| ==> results[c] == Judge(content, Phase1Checks[c])
    ensures total == ResultCount(results) == 24
    ensures passed == FoundCount(results) <= total
    ensures percent * total <= passed * 100 < (percent + 1) * total && percent <= 100
  {
    results, total, passed := CheckAll(content, Phase1Checks);
    Phase1Shape();
    ResultCountUniform(results, 3);
    percent := Percent(passed, total);
  }

  /** The checking loop: every item of every category is judged and counted. */
  method CheckAll(content: string, checks: seq<CheckCategory>)
    returns (results: seq<CategoryResult>, total: nat, passed: nat)
    ensures |results| == |checks|
    ensures forall c :: 0 <= c < |results| ==> results[c] == Judge(content, checks[c])
    ensures total == ResultCount(results)
    ensures passed == FoundCount(results) <= total
  {
    results := [];
    total := 0;
    passed := 0;
    for c := 0 to |checks|
      invariant |results| == c
      invariant forall m :: 0 <= m < c ==> results[m] == Judge(content, checks[m])
      invariant total == ResultCount(results)
      invariant passed == FoundCount(results)
    {
      var category := checks[c];
      var r, n := CheckCategoryItems(content, category);
      assert (results + [r])[..c] == results;
      total := total + |category.items|;
      passed := passed + n;
      results := results + [r];
    }
    FoundAtMostCount(results);
  }

  /** The inner loop over the items of one category. */
  method CheckCategoryItems(content: string, category: CheckCategory) returns (r: CategoryResult, found: nat)
    ensures r == Judge(content, category)
    ensures found == FoundIn(r.items)
  {
    var items: seq<ItemResult> := [];
    found := 0;
    for i := 0 to |category.items|
      invariant |items| == i
      invariant forall m :: 0 <= m < i ==>
                  items[m] == ItemResult(category.items[m].name, AnyKeyword(content, category.items[m].keywords))
      invariant found == FoundIn(items)
    {
      var item := category.items[i];
      var hit := AnyKeyword(content, item.keywords);
      assert (items + [ItemResult(item.name, hit)])[..i] == items;
      if hit {
        found := found + 1;
      }
      items := items + [ItemResult(item.name, hit)];
    }
    r := CategoryResult(category.name, items);
  }

  lemma {:induction false} FoundAtMostCount(results: seq<CategoryResult>)
    ensures FoundCount(results) <= ResultCount(results)
  {
    if results != [] {
      FoundAtMostCount(results[..|results| - 1]);
    }
  }

  /** The mark of a category: all items found, none found, or some. */
  function CategoryStatus(r: CategoryResult): string {
    var n := FoundIn(r.items);
    if n == |r.items| then "✅" else if n == 0 then "❌" else "⚠️"
  }

  lemma {:induction false} FoundInAll(items: seq<ItemResult>)
    ensures FoundIn(items) == |items| <==> forall i :: 0 <= i < |items| ==> items[i].found
    ensures FoundIn(items) == 0 <==> forall i :: 0 <= i < |items| ==> !items[i].found
  {
    if items != [] {
      var init := items[..|items| - 1];
      FoundInAll(init);
      assert forall i :: 0 <= i < |init| ==> init[i] == items[i];
    }
  }

  /** ✅ when every item is found, ❌ when items exist and none is found,
      ⚠️ otherwise. */
  lemma CategoryStatusMeaning(r: CategoryResult)
    ensures CategoryStatus(r) == "✅" <==> forall i :: 0 <= i < |r.items| ==> r.items[i].found
    ensures CategoryStatus(r) == "❌" <==>
              r.items != [] && forall i :: 0 <= i < |r.items| ==> !r.items[i].found
    ensures CategoryStatus(r) == "⚠️" <==>
              (exists i :: 0 <= i < |r.items| && r.items[i].found)
              && (exists i :: 0 <= i < |r.items| && !r.items[i].found)
  {
    FoundInAll(r.items);
  }

  /** The names of the items not found, category by category. */
  function Missing(results: seq<CategoryResult>): seq<string> {
    if results == [] then []
    else Missing(results[..|results| - 1]) + MissingIn(results[|results| - 1].items)
  }

  function MissingIn(items: seq<ItemResult>): seq<string> {
    if items == [] then []
    else MissingIn(items[..|items| - 1]) + (if items[|items| - 1].found then [] else [items[|items| - 1].name])
  }

  /** Every item is counted as found or listed as missing, never both. */
  lemma {:induction false} MissingCount(results: seq<CategoryResult>)
    ensures |Missing(results)| + FoundCount(results) == ResultCount(results)
  {
    if results != [] {
      MissingCount(results[..|results| - 1]);
      MissingInCount(results[|results| - 1].items);
    }
  }

  lemma {:induction false} MissingInCount(items: seq<ItemResult>)
    ensures |MissingIn(items)| + FoundIn(items) == |items|
  {
    if items != [] {
      MissingInCount(items[..|items| - 1]);
    }
  }

  /** The suggestion list: the first ten missing items and, when more are
      missing, how many were left out. */
  function MissingShown(results: seq<CategoryResult>): (r: (seq<string>, Option<nat>))
    ensures |r.0| + r.1.GetOr(0) == |Missing(results)|
    ensures |r.0| <= MaxShown && r.0 == Missing(results)[..|r.0|]
    ensures r.1.Some? ==> r.1.value > 0 && |r.0| == MaxShown
  {
    var missing := Missing(results);
    if |missing| > MaxShown then
      var rest: nat := |missing| - MaxShown;
      (missing[..MaxShown], Some(rest))
    else (missing, None)
  }

  // ---------------------------------------------------------------- calculate_budget

  /** The limits of a phase, in units of ten thousand NTD. */
  datatype PhaseLimit = PhaseLimit(max: real, subsidyMax: real, name: string)

  /** The limits of `phase`; an unknown phase gets those of Phase 1. */
  function LimitFor(phase: string): PhaseLimit {
    if phase == "phase2" then PhaseLimit(2400.0, 1200.0, "Phase 2")
    else if phase == "phase2plus" then PhaseLimit(1200.0, 600.0, "Phase 2+")
    else PhaseLimit(150.0, 150.0, "Phase 1")
  }

  lemma UnknownPhaseIsPhase1(phase: string)
    requires phase != "phase1" && phase != "phase2" && phase != "phase2plus"
    ensures LimitFor(phase) == LimitFor("phase1")
  {
  }

  /** One line of an allocation template: the item and its share. */
  datatype Share = Share(item: string, ratio: real)

  const ResearchTemplate: seq<Share> := [
    Share("人事費", 0.40), Share("消耗性器材", 0.20), Share("設備費", 0.15), Share("委託研究費", 0.10),
    Share("差旅費", 0.05), Share("專利費", 0.03), Share("管理費", 0.07)]
  const SoftwareTemplate: seq<Share> := [
    Share("人事費", 0.55), Share("消耗性器材", 0.05), Share("雲端服務費", 0.15), Share("委託研究費", 0.10),
    Share("差旅費", 0.05), Share("專利費", 0.03), Share("管理費", 0.07)]
  const HardwareTemplate: seq<Share> := [
    Share("人事費", 0.35), Share("消耗性器材", 0.25), Share("設備費", 0.20), Share("委託研究費", 0.08),
    Share("差旅費", 0.04), Share("專利費", 0.03), Share("管理費", 0.05)]
  const ServiceTemplate: seq<Share> := [
    Share("人事費", 0.50), Share("消耗性器材", 0.08), Share("場地費", 0.12), Share("委託研究費", 0.12),
    Share("差旅費", 0.08), Share("行銷費", 0.05), Share("管理費", 0.05)]

  /** The template of a project type; an unknown type gets the research one. */
  function TemplateFor(projectType: string): seq<Share> {
    if projectType == "軟體開發" then SoftwareTemplate
    else if projectType == "硬體開發" then HardwareTemplate
    else if projectType == "服務創新" then ServiceTemplate
    else ResearchTemplate
  }

  function RatioSum(shares: seq<Share>): real {
    if shares == [] then 0.0 else shares[0].ratio + RatioSum(shares[1..])
  }

  lemma RatioSumSeven(t: seq<Share>)
    requires |t| == 7
    ensures RatioSum(t) == t[0].ratio + t[1].ratio + t[2].ratio + t[3].ratio + t[4].ratio + t[5].ratio + t[6].ratio
  {
    assert t[6..][1..] == [];
    assert RatioSum(t[6..]) == t[6].ratio;
    assert t[5..][1..] == t[6..];
    assert RatioSum(t[5..]) == t[5].ratio + RatioSum(t[6..]);
    assert t[4..][1..] == t[5..];
    assert RatioSum(t[4..]) == t[4].ratio + RatioSum(t[5..]);
    assert t[3..][1..] == t[4..];
    assert RatioSum(t[3..]) == t[3].ratio + RatioSum(t[4..]);
    assert t[2..][1..] == t[3..];
    assert RatioSum(t[2..]) == t[2].ratio + RatioSum(t[3..]);
    assert t[1..][1..] == t[2..];
    assert RatioSum(t[1..]) == t[1].ratio + RatioSum(t[2..]);
  }

  lemma TemplateSums()
    ensures RatioSum(ResearchTemplate) == 1.0 && RatioSum(SoftwareTemplate) == 1.0
    ensures RatioSum(HardwareTemplate) == 1.0 && RatioSum(ServiceTemplate) == 1.0
  {
    RatioSumSeven(ResearchTemplate);
    RatioSumSeven(SoftwareTemplate);
    RatioSumSeven(HardwareTemplate);
    RatioSumSeven(ServiceTemplate);
  }

  /** Every template shares out the whole budget, starts with personnel
      and ends with management. */
  lemma TemplatesAreComplete(projectType: string)
    ensures |TemplateFor(projectType)| == 7
    ensures RatioSum(TemplateFor(projectType)) == 1.0
    ensures TemplateFor(projectType)[0].item == "人事費" && TemplateFor(projectType)[6].item == "管理費"
  {
    var t := TemplateFor(projectType);
    if projectType == "軟體開發" {
      assert t == SoftwareTemplate;
    } else if projectType == "硬體開發" {
      assert t == HardwareTemplate;
    } else if projectType == "服務創新" {
      assert t == ServiceTemplate;
    } else {
      assert t == ResearchTemplate;
    }
    TemplateSums();
  }

  /** The amount of each template line. */
  datatype Amount = Amount(item: string, amount: real)

  /** What `calculate_budget` reports for an accepted total. */
  datatype BudgetPlan = BudgetPlan(total: real, subsidy: real, selfFund: real, phaseName: string,
                                   allocation: seq<Amount>)

  /** Each template line with its share of `total`. */
  function Allocate(total: real, shares: seq<Share>): (r: seq<Amount>)
    ensures |r| == |shares|
    ensures forall i :: 0 <= i < |shares| ==> r[i] == Amount(shares[i].item, total * shares[i].ratio)
  {
    if shares == [] then [] else [Amount(shares[0].item, total * shares[0].ratio)] + Allocate(total, shares[1..])
  }

  function AmountSum(amounts: seq<Amount>): real {
    if amounts == [] then 0.0 else amounts[0].amount + AmountSum(amounts[1..])
  }

  /** The amounts are the total times the ratios, so they add up to the total
      times the ratio sum. */
  lemma {:induction false} AllocateSum(total: real, shares: seq<Share>)
    ensures AmountSum(Allocate(total, shares)) == total * RatioSum(shares)
  {
    if shares != [] {
      AllocateSum(total, shares[1..]);
      assert Allocate(total, shares)[1..] == Allocate(total, shares[1..]);
      assert total * RatioSum(shares) == total * shares[0].ratio + total * RatioSum(shares[1..]);
    }
  }

  function Min(a: real, b: real): real {
    if a <= b then a else b
  }

  /** `calculate_budget`: a total above the phase maximum is refused with the
      limits; otherwise half the total is subsidised, up to the phase's
      subsidy maximum, the rest is self-funded, and the total is shared out
      by the template of the project type. */
  function CalculateBudget(total: real, phase: string, projectType: string): (r: Result<BudgetPlan, PhaseLimit>)
    ensures r.Err? <==> total > LimitFor(phase).max
    ensures r.Err? ==> r.error == LimitFor(phase)
    ensures r.Ok? ==> r.value.subsidy + r.value.selfFund == total
    ensures r.Ok? ==> r.value.subsidy <= LimitFor(phase).subsidyMax && r.value.subsidy <= total * 0.5
    ensures r.Ok? ==> r.value.subsidy == total * 0.5 || r.value.subsidy == LimitFor(phase).subsidyMax
  {
    var limit := LimitFor(phase);
    if total > limit.max then Err(limit)
    else
      var subsidy := Min(total * 0.5, limit.subsidyMax);
      Ok(BudgetPlan(total, subsidy, total - subsidy, limit.name, Allocate(total, TemplateFor(projectType))))
  }

  /** The allocation of an accepted total adds up to the total. */
  lemma BudgetAllocationAddsUp(total: real, phase: string, projectType: string)
    requires CalculateBudget(total, phase, projectType).Ok?
    ensures AmountSum(CalculateBudget(total, phase, projectType).value.allocation) == total
  {
    AllocateSum(total, TemplateFor(projectType));
    TemplatesAreComplete(projectType);
  }

  /** Within the Phase 1 maximum the subsidy is always half the total: the
      subsidy cap equals the maximum. */
  lemma Phase1SubsidyIsHalf(total: real, projectType: string)
    requires CalculateBudget(total, "phase1", projectType).Ok?
    ensures CalculateBudget(total, "phase1", projectType).value.subsidy == total * 0.5
  {
  }
}
