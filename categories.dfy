/**
 * Spending and income labels (code_cpp/src/Category.cpp): the fixed
 * default set, the allocation of a fresh "custom_N" id for a user-added
 * category, and the list of display names.
 */
module Categories {
  import opened Text

  /** A label; isCustom tells a user-added category from a built-in one. */
  datatype Category = Category(id: string, name: string, isCustom: bool)

  /** The name stored when a custom category is added with an empty name. */
  const PLACEHOLDER_NAME: string := "自定义"

  /** The built-in categories, rebuilt in code on every load and never persisted. */
  function DefaultCategories(): (cs: seq<Category>)
    ensures |cs| == 5
    ensures cs[0].id == "c_food" && cs[1].id == "c_transport" && cs[2].id == "c_shopping"
    ensures cs[3].id == "c_salary" && cs[4].id == "c_other"
    ensures forall i :: 0 <= i < |cs| ==> !cs[i].isCustom
    ensures forall i, j :: 0 <= i < j < |cs| ==> cs[i].id != cs[j].id && cs[i].name != cs[j].name
  {
    var cs := [
      Category("c_food", "餐饮", false),
      Category("c_transport", "交通", false),
      Category("c_shopping", "购物", false),
      Category("c_salary", "工资", false),
      Category("c_other", "其他", false)
    ];
    assert forall i, j :: 0 <= i < j < |cs| ==> cs[i].id[2] != cs[j].id[2] || cs[i].id[3] != cs[j].id[3];
    assert forall i, j :: 0 <= i < j < |cs| ==> cs[i].name[0] != cs[j].name[0];
    cs
  }

  /** The id "custom_N" for N written in decimal. */
  function CustomId(n: nat): string {
    "custom_" + Decimal(n)
  }

  /** The ids in use in a category list. */
  function IdSet(cats: seq<Category>): set<string> {
    set i | 0 <= i < |cats| :: cats[i].id
  }

  lemma CustomIdInjective(a: nat, b: nat)
    requires CustomId(a) == CustomId(b)
    ensures a == b
  {
    assert CustomId(a)[7..] == Decimal(a);
    assert CustomId(b)[7..] == Decimal(b);
    DecimalInjective(a, b);
  }

  lemma {:induction false} IdSetSize(cats: seq<Category>)
    ensures |IdSet(cats)| <= |cats|
  {
    if |cats| > 0 {
      var init := cats[..|cats| - 1];
      IdSetSize(init);
      assert IdSet(cats) == IdSet(init) + {cats[|cats| - 1].id};
    }
  }

  /** The ids custom_1 .. custom_(n-1). */
  ghost function CustomIdsBelow(n: nat): set<string> {
    set k | 1 <= k < n :: CustomId(k)
  }

  lemma {:induction false} CustomIdsBelowSize(n: nat)
    requires n >= 1
    ensures |CustomIdsBelow(n)| == n - 1
  {
    if n > 1 {
      CustomIdsBelowSize(n - 1);
      assert CustomIdsBelow(n) == CustomIdsBelow(n - 1) + {CustomId(n - 1)};
      if CustomId(n - 1) in CustomIdsBelow(n - 1) {
        var k :| 1 <= k < n - 1 && CustomId(k) == CustomId(n - 1);
        CustomIdInjective(k, n - 1);
      }
    } else {
      assert CustomIdsBelow(n) == {};
    }
  }

  /** If custom_1 .. custom_n are all taken, the list has at least n entries. */
  lemma Pigeonhole(cats: seq<Category>, n: nat)
    requires forall k :: 1 <= k <= n ==> CustomId(k) in IdSet(cats)
    ensures n <= |cats|
  {
    CustomIdsBelowSize(n + 1);
    IdSetSize(cats);
    assert CustomIdsBelow(n + 1) <= IdSet(cats);
    SubsetSize(CustomIdsBelow(n + 1), IdSet(cats));
  }

  lemma {:induction false} SubsetSize<T>(a: set<T>, b: set<T>)
    requires a <= b
    ensures |a| <= |b|
    decreases |b|
  {
    if a != {} {
      var x :| x in a;
      SubsetSize(a - {x}, b - {x});
    }
  }

  /**
   * Appends a custom category: the name, or the placeholder when empty,
   * under the id custom_N for the smallest N >= 1 that no category uses.
   */
  method AddCustomCategory(cats: seq<Category>, name: string) returns (cats': seq<Category>, added: Category)
    ensures cats' == cats + [added]
    ensures added.isCustom
    ensures added.name == if name == "" then PLACEHOLDER_NAME else name
    ensures added.id !in IdSet(cats)
    ensures exists n :: 1 <= n <= |cats| + 1 && added.id == CustomId(n) &&
                        forall k :: 1 <= k < n ==> CustomId(k) in IdSet(cats)
  {
    var sanitized := name;
    if sanitized == "" {
      sanitized := PLACEHOLDER_NAME;
    }
    var counter: nat := 1;
    var candidate := "";
    var unique := false;
    while !unique
      invariant 1 <= counter
      invariant !unique ==> counter <= |cats| + 1
      invariant !unique ==> forall k :: 1 <= k < counter ==> CustomId(k) in IdSet(cats)
      invariant unique ==> 2 <= counter <= |cats| + 2 && candidate == CustomId(counter - 1)
      invariant unique ==> candidate !in IdSet(cats)
      invariant unique ==> forall k :: 1 <= k < counter - 1 ==> CustomId(k) in IdSet(cats)
      decreases !unique, |cats| + 1 - counter
    {
      candidate := CustomId(counter);
      counter := counter + 1;
      unique := true;
      var j := 0;
      while j < |cats|
        invariant 0 <= j <= |cats|
        invariant forall m :: 0 <= m < j ==> cats[m].id != candidate
      {
        if cats[j].id == candidate {
          unique := false;
          break;
        }
        j := j + 1;
      }
      if !unique {
        assert candidate in IdSet(cats);
        Pigeonhole(cats, counter - 1);
      }
    }
    added := Category(candidate, sanitized, true);
    cats' := cats + [added];
  }

  /** The display names of the categories, in list order. */
  method GetCategoryList(cats: seq<Category>) returns (names: seq<string>)
    ensures |names| == |cats|
    ensures forall i :: 0 <= i < |cats| ==> names[i] == cats[i].name
  {
    names := [];
    for i := 0 to |cats|
      invariant |names| == i
      invariant forall m :: 0 <= m < i ==> names[m] == cats[m].name
    {
      names := names + [cats[i].name];
    }
  }
}
