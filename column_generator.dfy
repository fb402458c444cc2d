/** The table layout of `bags_forecast`: `order_id`, 60 category columns
    (10 categories x {normal, cold, frozen} x {vu, weight}) and 12 aggregate,
    actuals and forecast columns; and the choice of training features. */
module ColumnGenerator {
  import opened Strings
  import opened Frames

  const Kinds: seq<string> :=
    ["normal_vu", "normal_weight", "cold_vu", "cold_weight", "frozen_vu", "frozen_weight"]

  /** `f'cat_{i:02}_{kind}'`. */
  function CategoryName(i: int, k: int): string
    requires 1 <= i <= 10 && 0 <= k < 6
  {
    "cat_" + TwoDigits(i) + "_" + Kinds[k]
  }

  /** The six columns of category `i`, each followed by `suffix`. */
  function CategoryBlock(i: int, suffix: string): (b: seq<string>)
    requires 1 <= i <= 10
    ensures |b| == 6 && forall k :: 0 <= k < 6 ==> b[k] == CategoryName(i, k) + suffix
  {
    seq(6, k requires 0 <= k < 6 => CategoryName(i, k) + suffix)
  }

  /** The blocks of categories 1 .. n, in order: kind k of category i sits
      at 6(i-1)+k. */
  function CategoryList(n: int, suffix: string): (cs: seq<string>)
    requires 0 <= n <= 10
    ensures |cs| == 6 * n
    ensures forall i, k :: 1 <= i <= n && 0 <= k < 6 ==> cs[6 * (i - 1) + k] == CategoryName(i, k) + suffix
  {
    if n == 0 then [] else CategoryList(n - 1, suffix) + CategoryBlock(n, suffix)
  }

  /** Every entry of the list is some category name. */
  lemma CategoryListEntry(n: int, suffix: string, j: int) returns (i: int, k: int)
    requires 0 <= n <= 10 && 0 <= j < 6 * n
    ensures 1 <= i <= n && 0 <= k < 6 && j == 6 * (i - 1) + k
    ensures CategoryList(n, suffix)[j] == CategoryName(i, k) + suffix
  {
    i, k := j / 6 + 1, j % 6;
  }

  /** The loop `for i in range(1, 11): columns.extend([...six names...])`
      shared by `generate_columns`, `prepare_csv.main` and `reorder_columns`. */
  method ExtendWithCategories(start: seq<string>, suffix: string) returns (columns: seq<string>)
    ensures |columns| == |start| + 60
    ensures columns[..|start|] == start
    ensures forall i, k :: 1 <= i <= 10 && 0 <= k < 6 ==>
              columns[|start| + 6 * (i - 1) + k] == CategoryName(i, k) + suffix
    ensures columns == start + CategoryList(10, suffix)
  {
    columns := start;
    for i := 1 to 11
      invariant columns == start + CategoryList(i - 1, suffix)
    {
      ExtendStep(start, suffix, i, columns);
      columns := columns + CategoryBlock(i, suffix);
    }
    CategoriesAfter(start, suffix, columns);
  }

  lemma ExtendStep(start: seq<string>, suffix: string, i: int, columns: seq<string>)
    requires 1 <= i <= 10 && columns == start + CategoryList(i - 1, suffix)
    ensures columns + CategoryBlock(i, suffix) == start + CategoryList(i, suffix)
  {
    var prev, block := CategoryList(i - 1, suffix), CategoryBlock(i, suffix);
    assert CategoryList(i, suffix) == prev + block;
    assert (start + prev) + block == start + (prev + block);
  }

  lemma CategoriesAfter(start: seq<string>, suffix: string, columns: seq<string>)
    requires columns == start + CategoryList(10, suffix)
    ensures |columns| == |start| + 60
    ensures columns[..|start|] == start
    ensures forall i, k :: 1 <= i <= 10 && 0 <= k < 6 ==>
              columns[|start| + 6 * (i - 1) + k] == CategoryName(i, k) + suffix
  {
    var cats := CategoryList(10, suffix);
    assert forall j :: 0 <= j < 60 ==> columns[|start| + j] == cats[j];
  }

  const AdditionalNames: seq<string> := [
    "lint_item_count", "total_quantity", "positions", "total_weight", "hub_id", "delivery_time",
    "bags_used", "bags_used_forecast", "cold_bags_used", "cold_bags_used_forecast",
    "deep_frozen_bags_used", "deep_frozen_bags_used_forecast"]

  const AdditionalTypes: seq<string> := [
    "INTEGER", "INTEGER", "INTEGER", "FLOAT", "INTEGER", "TIMESTAMP",
    "INTEGER", "FLOAT", "INTEGER", "FLOAT", "INTEGER", "FLOAT"]

  /** `"<name> <type>"` for each additional column. */
  function AdditionalDefinitions(): (defs: seq<string>)
    ensures |defs| == 12
  {
    seq(12, j requires 0 <= j < 12 => AdditionalNames[j] + " " + AdditionalTypes[j])
  }

  const KeyDefinition: string := "order_id" + " " + "INTEGER PRIMARY KEY"

  /** The actuals and forecast columns. */
  const Actuals: seq<string> := ["bags_used", "cold_bags_used", "deep_frozen_bags_used"]
  const Forecasts: seq<string> :=
    ["bags_used_forecast", "cold_bags_used_forecast", "deep_frozen_bags_used_forecast"]

  /** The list `generate_columns` returns, as one expression. */
  function ColumnDefinitions(): seq<string>
  {
    [KeyDefinition] + CategoryList(10, " FLOAT") + AdditionalDefinitions()
  }

  /** `generate_columns()`: 73 = 10 * 6 + 13 definitions, `order_id` first,
      the six columns of category i at 6(i-1)+1 .. 6(i-1)+6, the twelve
      additional ones last. */
  method GenerateColumns() returns (columns: seq<string>)
    ensures |columns| == 73
    ensures columns[0] == "order_id INTEGER PRIMARY KEY"
    ensures columns[72] == "deep_frozen_bags_used_forecast FLOAT"
    ensures forall i, k :: 1 <= i <= 10 && 0 <= k < 6 ==>
              columns[1 + 6 * (i - 1) + k] == CategoryName(i, k) + " FLOAT"
    ensures columns[61..] == AdditionalDefinitions()
    ensures columns == ColumnDefinitions()
  {
    columns := ExtendWithCategories([KeyDefinition], " FLOAT");
    columns := columns + AdditionalDefinitions();
    DefinitionLiterals();
  }

  /** The first and the last definition, spelled out. */
  lemma DefinitionLiterals()
    ensures KeyDefinition == "order_id INTEGER PRIMARY KEY"
    ensures AdditionalDefinitions()[11] == "deep_frozen_bags_used_forecast FLOAT"
  {
    KeyDefinitionLiteral();
    LastDefinition();
  }

  lemma KeyDefinitionLiteral()
    ensures KeyDefinition == "order_id INTEGER PRIMARY KEY"
  {
    assert "order_id" + " " == "order_id ";
  }

  lemma LastDefinition()
    ensures AdditionalDefinitions()[11] == "deep_frozen_bags_used_forecast FLOAT"
  {
    var name, kind := AdditionalNames[11], AdditionalTypes[11];
    assert AdditionalDefinitions()[11] == name + " " + kind;
    assert name == "deep_frozen_bags_used_forecast" && kind == "FLOAT";
    LastDefinitionSpelled();
  }

  lemma LastDefinitionSpelled()
    ensures "deep_frozen_bags_used_forecast" + " " + "FLOAT" == "deep_frozen_bags_used_forecast FLOAT"
  {
    assert " " + "FLOAT" == " FLOAT";
  }

  /** `get_column_names()`: the first token of every definition. */
  function GetColumnNames(): (names: seq<string>)
    ensures |names| == |ColumnDefinitions()|
    ensures forall k :: 0 <= k < |names| ==> names[k] == FirstToken(ColumnDefinitions()[k])
  {
    var defs := ColumnDefinitions();
    seq(|defs|, k requires 0 <= k < |defs| => FirstToken(defs[k]))
  }

  /** The fixed parts of column names use lower-case letters and `_` only. */
  predicate IsWordChar(c: char)
  {
    'a' <= c <= 'z' || c == '_'
  }

  predicate IsWord(s: string)
  {
    s != [] && forall i :: 0 <= i < |s| ==> IsWordChar(s[i])
  }

  lemma WordHasNoSpace(s: string)
    requires IsWord(s)
    ensures s != [] && HasNoSpace(s)
  {
    forall i | 0 <= i < |s| ensures !IsSpace(s[i]) {
      assert IsWordChar(s[i]);
    }
  }

  lemma NoSpaceConcat(a: string, b: string)
    requires HasNoSpace(a) && HasNoSpace(b)
    ensures HasNoSpace(a + b)
  {
    forall i | 0 <= i < |a + b| ensures !IsSpace((a + b)[i]) {
      if i < |a| { assert (a + b)[i] == a[i]; } else { assert (a + b)[i] == b[i - |a|]; }
    }
  }

  lemma KindIsWord(k: int)
    requires 0 <= k < 6
    ensures IsWord(Kinds[k])
  {
    if k == 0 { assert IsWord("normal_vu"); }
    else if k == 1 { assert IsWord("normal_weight"); }
    else if k == 2 { assert IsWord("cold_vu"); }
    else if k == 3 { assert IsWord("cold_weight"); }
    else if k == 4 { assert IsWord("frozen_vu"); }
    else { assert IsWord("frozen_weight"); }
  }

  lemma CategoryNameHasNoSpace(i: int, k: int)
    requires 1 <= i <= 10 && 0 <= k < 6
    ensures CategoryName(i, k) != [] && HasNoSpace(CategoryName(i, k))
  {
    var d := TwoDigits(i);
    assert IsWord("cat_") && IsWord("_");
    WordHasNoSpace("cat_");
    WordHasNoSpace("_");
    KindIsWord(k);
    WordHasNoSpace(Kinds[k]);
    assert HasNoSpace(d);
    NoSpaceConcat("cat_", d);
    NoSpaceConcat("cat_" + d, "_");
    NoSpaceConcat("cat_" + d + "_", Kinds[k]);
  }

  lemma AdditionalNameIsWord(j: int)
    requires 0 <= j < 12
    ensures IsWord(AdditionalNames[j])
  {
    if j < 3 { AdditionalNamesAreWords0(j); }
    else if j < 6 { AdditionalNamesAreWords1(j); }
    else if j < 9 { AdditionalNamesAreWords2(j); }
    else { AdditionalNamesAreWords3(j); }
  }

  lemma AdditionalNamesAreWords0(j: int)
    requires 0 <= j < 3
    ensures IsWord(AdditionalNames[j])
  {
    if j == 0 { assert IsWord("lint_item_count"); }
    else if j == 1 { assert IsWord("total_quantity"); }
    else { assert IsWord("positions"); }
  }

  lemma AdditionalNamesAreWords1(j: int)
    requires 3 <= j < 6
    ensures IsWord(AdditionalNames[j])
  {
    if j == 3 { assert IsWord("total_weight"); }
    else if j == 4 { assert IsWord("hub_id"); }
    else { assert IsWord("delivery_time"); }
  }

  lemma AdditionalNamesAreWords2(j: int)
    requires 6 <= j < 9
    ensures IsWord(AdditionalNames[j])
  {
    if j == 6 { assert IsWord("bags_used"); }
    else if j == 7 { assert IsWord("bags_used_forecast"); }
    else { assert IsWord("cold_bags_used"); }
  }

  lemma AdditionalNamesAreWords3(j: int)
    requires 9 <= j < 12
    ensures IsWord(AdditionalNames[j])
  {
    if j == 9 { assert IsWord("cold_bags_used_forecast"); }
    else if j == 10 { assert IsWord("deep_frozen_bags_used"); }
    else { assert IsWord("deep_frozen_bags_used_forecast"); }
  }

  /** The additional names are distinct, none starts with `cat_` and none is `order_id`. */
  lemma AdditionalNamesDistinct()
    ensures Distinct(AdditionalNames)
    ensures forall j :: 0 <= j < 12 ==> !StartsWith(AdditionalNames[j], "cat_")
    ensures "order_id" !in AdditionalNames
  {
    forall a, b | 0 <= a < b < 12 ensures AdditionalNames[a] != AdditionalNames[b] {
      assert |AdditionalNames[a]| != |AdditionalNames[b]| || AdditionalNames[a][0] != AdditionalNames[b][0];
    }
    forall j | 0 <= j < 12 ensures !StartsWith(AdditionalNames[j], "cat_") {
      assert |AdditionalNames[j]| >= 2;
      NotCategoryColumn(AdditionalNames[j]);
    }
  }

  /** The bare names: `order_id`, the 60 category names, the 12 additional
      names; entry k is the first token of definition k. */
  lemma {:induction false} ColumnNamesLayout()
    ensures GetColumnNames() == ["order_id"] + CategoryList(10, "") + AdditionalNames
    ensures |GetColumnNames()| == 73
    ensures GetColumnNames()[0] == "order_id"
    ensures GetColumnNames()[72] == "deep_frozen_bags_used_forecast"
  {
    var names := GetColumnNames();
    var expected := ["order_id"] + CategoryList(10, "") + AdditionalNames;
    forall k | 0 <= k < 73 ensures names[k] == expected[k] {
      if k == 0 {
        KeyName();
      } else if k <= 60 {
        CategoryDefinitionName(k);
      } else {
        AdditionalDefinitionName(k);
      }
    }
  }

  lemma KeyName()
    ensures FirstToken(ColumnDefinitions()[0]) == "order_id"
  {
    assert IsWord("order_id");
    WordHasNoSpace("order_id");
    FirstTokenOfDefinition("order_id", "INTEGER PRIMARY KEY");
  }

  lemma CategoryDefinitionName(k: int)
    requires 1 <= k <= 60
    ensures FirstToken(ColumnDefinitions()[k]) == CategoryList(10, "")[k - 1]
  {
    var i, kind := CategoryListEntry(10, " FLOAT", k - 1);
    var _, _ := CategoryListEntry(10, "", k - 1);
    ColumnDefinitionAt(k);
    assert ColumnDefinitions()[k] == CategoryName(i, kind) + " FLOAT";
    CategoryNameToken(i, kind);
    assert CategoryList(10, "")[k - 1] == CategoryName(i, kind) + "";
  }

  lemma ColumnDefinitionAt(k: int)
    requires 1 <= k <= 60
    ensures ColumnDefinitions()[k] == CategoryList(10, " FLOAT")[k - 1]
  {
    var cats := CategoryList(10, " FLOAT");
    assert ColumnDefinitions() == [KeyDefinition] + (cats + AdditionalDefinitions());
    assert (cats + AdditionalDefinitions())[k - 1] == cats[k - 1];
  }

  lemma CategoryNameToken(i: int, kind: int)
    requires 1 <= i <= 10 && 0 <= kind < 6
    ensures FirstToken(CategoryName(i, kind) + " FLOAT") == CategoryName(i, kind)
  {
    assert CategoryName(i, kind) + " FLOAT" == CategoryName(i, kind) + " " + "FLOAT";
    CategoryNameHasNoSpace(i, kind);
    FirstTokenOfDefinition(CategoryName(i, kind), "FLOAT");
  }

  lemma AdditionalDefinitionName(k: int)
    requires 61 <= k < 73
    ensures FirstToken(ColumnDefinitions()[k]) == AdditionalNames[k - 61]
  {
    var j := k - 61;
    assert ColumnDefinitions()[k] == AdditionalDefinitions()[j];
    AdditionalNameIsWord(j);
    WordHasNoSpace(AdditionalNames[j]);
    FirstTokenOfDefinition(AdditionalNames[j], AdditionalTypes[j]);
  }

  lemma CategoryNameInjective(i: int, k: int, j: int, l: int)
    requires 1 <= i <= 10 && 0 <= k < 6 && 1 <= j <= 10 && 0 <= l < 6
    requires CategoryName(i, k) == CategoryName(j, l)
    ensures i == j && k == l
  {
    var a, b := CategoryName(i, k), CategoryName(j, l);
    assert a[4..6] == TwoDigits(i) && b[4..6] == TwoDigits(j);
    TwoDigitsInjective(i, j);
    assert a[7..] == Kinds[k] && b[7..] == Kinds[l];
  }

  lemma CategoryNamePrefix(i: int, k: int)
    requires 1 <= i <= 10 && 0 <= k < 6
    ensures StartsWith(CategoryName(i, k), "cat_")
  {
    assert CategoryName(i, k)[..4] == "cat_";
  }

  /** The 73 names are pairwise distinct, as the CREATE TABLE built from them needs. */
  lemma ColumnNamesDistinct()
    ensures Distinct(GetColumnNames())
  {
    ColumnNamesLayout();
    AdditionalNamesDistinct();
    KeyAndCategoriesDistinct();
    KeyAndCategoriesNotAdditional();
    DistinctConcat(["order_id"] + CategoryList(10, ""), AdditionalNames);
  }

  lemma KeyAndCategoriesDistinct()
    ensures Distinct(["order_id"] + CategoryList(10, ""))
  {
    CategoryNamesDistinct();
    NotCategoryColumn("order_id");
    DistinctConcat(["order_id"], CategoryList(10, ""));
  }

  lemma KeyAndCategoriesNotAdditional()
    ensures forall x :: x in ["order_id"] + CategoryList(10, "") ==> x !in AdditionalNames
  {
    var cats := CategoryList(10, "");
    CategoryNamesDistinct();
    forall x | x in ["order_id"] + cats ensures x !in AdditionalNames {
      if x != "order_id" {
        var j :| 0 <= j < 60 && cats[j] == x;
        assert StartsWith(x, "cat_");
      }
      NotAdditional(x);
    }
  }

  /** Neither `order_id` nor a `cat_` name is among the additional names. */
  lemma NotAdditional(x: string)
    requires x == "order_id" || StartsWith(x, "cat_")
    ensures x !in AdditionalNames
  {
    AdditionalNamesDistinct();
    if x != "order_id" {
      forall j | 0 <= j < 12 ensures AdditionalNames[j] != x {
        assert !StartsWith(AdditionalNames[j], "cat_");
      }
    }
  }

  /** The 60 category names are distinct and all start with `cat_`. */
  lemma CategoryNamesDistinct()
    ensures Distinct(CategoryList(10, ""))
    ensures forall j :: 0 <= j < 60 ==> StartsWith(CategoryList(10, "")[j], "cat_")
  {
    var cats := CategoryList(10, "");
    forall a, b | 0 <= a < b < 60 ensures cats[a] != cats[b] {
      CategoryEntriesDiffer(a, b);
    }
    forall j | 0 <= j < 60 ensures StartsWith(cats[j], "cat_") {
      CategoryEntryPrefix(j);
    }
  }

  lemma CategoryEntriesDiffer(a: int, b: int)
    requires 0 <= a < b < 60
    ensures CategoryList(10, "")[a] != CategoryList(10, "")[b]
  {
    var ia, ka := CategoryListEntry(10, "", a);
    var ib, kb := CategoryListEntry(10, "", b);
    if CategoryName(ia, ka) == CategoryName(ib, kb) {
      CategoryNameInjective(ia, ka, ib, kb);
    }
    assert CategoryName(ia, ka) + "" == CategoryName(ia, ka);
    assert CategoryName(ib, kb) + "" == CategoryName(ib, kb);
  }

  lemma CategoryEntryPrefix(j: int)
    requires 0 <= j < 60
    ensures StartsWith(CategoryList(10, "")[j], "cat_")
  {
    var i, k := CategoryListEntry(10, "", j);
    assert CategoryName(i, k) + "" == CategoryName(i, k);
    CategoryNamePrefix(i, k);
  }

  lemma DistinctConcat<T>(a: seq<T>, b: seq<T>)
    requires Distinct(a) && Distinct(b)
    requires forall x :: x in a ==> x !in b
    ensures Distinct(a + b)
  {
    forall i, j | 0 <= i < j < |a + b| ensures (a + b)[i] != (a + b)[j] {
      if j < |a| {
        assert (a + b)[i] == a[i] && (a + b)[j] == a[j];
      } else if i < |a| {
        assert (a + b)[i] == a[i] && (a + b)[j] == b[j - |a|];
        assert a[i] in a && b[j - |a|] in b;
      } else {
        assert (a + b)[i] == b[i - |a|] && (a + b)[j] == b[j - |a|];
      }
    }
  }

  const TotalsColumns: seq<string> := ["lint_item_count", "total_quantity", "positions", "total_weight"]
  const ExtraFeatureColumns: seq<string> := ["day_of_week", "number_of_week", "delivery_hour"]

  predicate IsCategoryColumn(c: string)
  {
    StartsWith(c, "cat_")
  }

  predicate IsNotCategoryColumn(c: string)
  {
    !IsCategoryColumn(c)
  }

  /** `build_training_features`: the `cat_` columns of `columns` in their order,
      then the four totals, then the three calendar features (appended whether
      or not `columns` has them). */
  function BuildTrainingFeatures(columns: seq<string>): (features: seq<string>)
    ensures |features| >= 7
    ensures features[|features| - 7..] == TotalsColumns + ExtraFeatureColumns
    ensures features[..|features| - 7] == ColumnsWithout(columns, IsNotCategoryColumn)
    ensures IsSubsequence(features[..|features| - 7], columns)
    ensures forall c :: c in features <==>
              (c in columns && StartsWith(c, "cat_")) || c in TotalsColumns || c in ExtraFeatureColumns
  {
    ColumnsWithoutIsSubsequence(columns, IsNotCategoryColumn);
    var cats := ColumnsWithout(columns, IsNotCategoryColumn);
    var features := cats + TotalsColumns + ExtraFeatureColumns;
    assert features[..|features| - 7] == cats;
    features
  }

  /** On the table's own columns the features are the 60 category columns,
      the totals and the calendar features. */
  lemma TrainingFeaturesOfSchema()
    ensures BuildTrainingFeatures(GetColumnNames())
              == CategoryList(10, "") + TotalsColumns + ExtraFeatureColumns
  {
    CategoryColumnsOfSchema();
  }

  lemma CategoryColumnsOfSchema()
    ensures ColumnsWithout(GetColumnNames(), IsNotCategoryColumn) == CategoryList(10, "")
  {
    ColumnNamesLayout();
    CategoryColumnsOfNames();
  }

  /** A name whose first two letters are not `ca` is not a category column. */
  lemma NotCategoryColumn(c: string)
    requires |c| >= 2 && (c[0] != 'c' || c[1] != 'a')
    ensures !StartsWith(c, "cat_")
  {
    if |c| >= 4 {
      assert c[..4][0] == c[0] && c[..4][1] == c[1];
    }
  }

  lemma CategoryColumnsOfNames()
    ensures ColumnsWithout(["order_id"] + CategoryList(10, "") + AdditionalNames, IsNotCategoryColumn)
            == CategoryList(10, "")
  {
    KeyIsNotCategory();
    CategoriesAreKept();
    AdditionalAreNotCategories();
    KeepMiddle(["order_id"], CategoryList(10, ""), AdditionalNames);
  }

  lemma KeyIsNotCategory()
    ensures ColumnsWithout(["order_id"], IsNotCategoryColumn) == []
  {
    NotCategoryColumn("order_id");
    ColumnsWithoutNone(["order_id"]);
  }

  lemma CategoriesAreKept()
    ensures ColumnsWithout(CategoryList(10, ""), IsNotCategoryColumn) == CategoryList(10, "")
  {
    CategoryNamesDistinct();
    ColumnsWithoutUnchangedInverse(CategoryList(10, ""));
  }

  lemma AdditionalAreNotCategories()
    ensures ColumnsWithout(AdditionalNames, IsNotCategoryColumn) == []
  {
    AdditionalNamesDistinct();
    ColumnsWithoutNone(AdditionalNames);
  }

  lemma KeepMiddle(a: seq<string>, b: seq<string>, c: seq<string>)
    requires ColumnsWithout(a, IsNotCategoryColumn) == [] && ColumnsWithout(c, IsNotCategoryColumn) == []
    requires ColumnsWithout(b, IsNotCategoryColumn) == b
    ensures ColumnsWithout(a + b + c, IsNotCategoryColumn) == b
  {
    ColumnsWithoutAppend(a, b, c);
    assert [] + b + [] == b;
  }

  /** The columns a model must not see: the key, the hub, the timestamp, the
      actuals and the forecasts. */
  const NonFeatureColumns: seq<string> := ["order_id", "hub_id", "delivery_time"] + Actuals + Forecasts

  /** None of them is ever chosen as a training feature on the table's columns. */
  lemma TrainingFeaturesExcludeTargets()
    ensures forall c :: c in NonFeatureColumns ==> c !in BuildTrainingFeatures(GetColumnNames())
  {
    var cats, rest := CategoryList(10, ""), TotalsColumns + ExtraFeatureColumns;
    TrainingFeaturesOfSchema();
    assert BuildTrainingFeatures(GetColumnNames()) == cats + rest;
    forall c | c in NonFeatureColumns ensures c !in cats + rest {
      var j :| 0 <= j < |NonFeatureColumns| && NonFeatureColumns[j] == c;
      NonFeatureOutside(j);
    }
  }

  lemma NonFeatureOutside(j: int)
    requires 0 <= j < |NonFeatureColumns|
    ensures NonFeatureColumns[j] !in CategoryList(10, "") + (TotalsColumns + ExtraFeatureColumns)
  {
    CategoryNamesDistinct();
    NotAFeature(j);
    OutsidePrefixedList(NonFeatureColumns[j], CategoryList(10, ""), TotalsColumns + ExtraFeatureColumns);
  }

  lemma OutsidePrefixedList(c: string, cats: seq<string>, others: seq<string>)
    requires forall j :: 0 <= j < |cats| ==> StartsWith(cats[j], "cat_")
    requires !StartsWith(c, "cat_") && c !in others
    ensures c !in cats + others
  {
  }

  lemma NotAFeature(j: int)
    requires 0 <= j < |NonFeatureColumns|
    ensures NonFeatureColumns[j] !in TotalsColumns + ExtraFeatureColumns
    ensures !StartsWith(NonFeatureColumns[j], "cat_")
  {
    var c := NonFeatureColumns[j];
    NotCategoryColumn(c);
    var fs := TotalsColumns + ExtraFeatureColumns;
    forall i | 0 <= i < |fs| ensures fs[i] != c {
      assert |fs[i]| != |c| || fs[i][0] != c[0] || fs[i][|c| - 1] != c[|c| - 1];
    }
  }

  lemma {:induction false} ColumnsWithoutUnchangedInverse(cols: seq<string>)
    requires forall j :: 0 <= j < |cols| ==> !IsNotCategoryColumn(cols[j])
    ensures ColumnsWithout(cols, IsNotCategoryColumn) == cols
  {
    ColumnsWithoutUnchanged(cols, IsNotCategoryColumn);
  }

  lemma {:induction false} ColumnsWithoutNone(cols: seq<string>)
    requires forall j :: 0 <= j < |cols| ==> !StartsWith(cols[j], "cat_")
    ensures ColumnsWithout(cols, IsNotCategoryColumn) == []
  {
    if cols != [] {
      ColumnsWithoutNone(cols[1..]);
    }
  }

  lemma {:induction false} ColumnsWithoutAppend(a: seq<string>, b: seq<string>, c: seq<string>)
    ensures ColumnsWithout(a + b + c, IsNotCategoryColumn)
            == ColumnsWithout(a, IsNotCategoryColumn) + ColumnsWithout(b, IsNotCategoryColumn)
               + ColumnsWithout(c, IsNotCategoryColumn)
  {
    ColumnsWithoutConcat(a + b, c, IsNotCategoryColumn);
    ColumnsWithoutConcat(a, b, IsNotCategoryColumn);
  }

  lemma TailOfConcat(a: seq<string>, b: seq<string>)
    requires a != []
    ensures a + b != [] && (a + b)[0] == a[0] && (a + b)[1..] == a[1..] + b
  {
  }

  lemma {:induction false} ColumnsWithoutConcat(a: seq<string>, b: seq<string>, drop: string -> bool)
    ensures ColumnsWithout(a + b, drop) == ColumnsWithout(a, drop) + ColumnsWithout(b, drop)
  {
    if a == [] {
      assert a + b == b;
    } else {
      var ab, tail := a + b, a[1..] + b;
      TailOfConcat(a, b);
      ColumnsWithoutConcat(a[1..], b, drop);
      var rest, kb := ColumnsWithout(a[1..], drop), ColumnsWithout(b, drop);
      assert ColumnsWithout(tail, drop) == rest + kb;
      if drop(a[0]) {
        assert ColumnsWithout(ab, drop) == ColumnsWithout(tail, drop);
      } else {
        assert ColumnsWithout(ab, drop) == [a[0]] + ColumnsWithout(tail, drop);
        assert [a[0]] + (rest + kb) == ([a[0]] + rest) + kb;
      }
    }
  }
}
