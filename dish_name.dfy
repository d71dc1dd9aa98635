/**
  Dish-name normalisation: a raw menu line is cut at its price marker,
  stripped of asterisks, dashes and list numbering, and rejected when too
  short or when it is a category header. The TypeScript route and the two
  Python implementations spell the steps alike but differ in which
  whitespace they strip and in how they count length.
 */
module DishName {
  import opened Seqs
  import opened Text

  /** The category headings that are never searched for (compared in lower case). */
  const CategoryHeaders: seq<string> :=
    ["soups", "starters", "salads", "entrees", "pastas", "appetizers", "mains", "desserts"]

  /** The two price markers; a line is cut at the first of each, in this order. */
  const DashPrice: string := " - $"
  const SpacePrice: string := " $"

  /** The class `[0-9.-\s]` of the TypeScript list-number pattern. */
  predicate IsTsLeading(c: char)
  {
    IsDigit(c) || c == '.' || c == '-' || IsJsSpace(c)
  }

  /** The characters of `'0123456789.- '` given to Python's `lstrip`. */
  predicate IsPyLeading(c: char)
  {
    IsDigit(c) || c == '.' || c == '-' || c == ' '
  }

  /** The line with everything from the first `" - $"`, then from the first `" $"`, cut off. */
  function PricePrefix(item: string): (r: string)
    ensures |r| <= |item| && r == item[..|r|]
  {
    BeforeIsPrefix(item, DashPrice);
    var a := Before(item, DashPrice);
    BeforeIsPrefix(a, SpacePrice);
    Before(a, SpacePrice)
  }

  /** Stage one: the price prefix, stripped. */
  function Priced(item: string, space: char -> bool): (r: string)
    ensures |r| <= |PricePrefix(item)|
    ensures forall c | c in r :: c in item
  {
    Trim(PricePrefix(item), space)
  }

  /** Stage two: every `*` and `-` deleted, then stripped. */
  function Unstarred(s: string, space: char -> bool): (r: string)
    ensures |r| <= |s| && '*' !in r && '-' !in r
    ensures forall c | c in r :: c in s
  {
    var starless := RemoveAll(s, '*');
    var r := Trim(RemoveAll(starless, '-'), space);
    assert '*' !in r;
    r
  }

  /** Stage three: the leading run of list-number characters dropped, then stripped. */
  function Unnumbered(s: string, space: char -> bool, leading: char -> bool): (r: string)
    ensures |r| <= |s|
    ensures r == [] || (!space(r[0]) && !space(r[|r| - 1]))
    ensures forall c | c in r :: c in s
  {
    var rest := DropWhile(s, leading);
    assert forall c | c in rest :: c in s;
    Trim(rest, space)
  }

  /** When every whitespace character of `s` is a list-number character, stage three leaves neither in front. */
  lemma UnnumberedNotLeading(s: string, space: char -> bool, leading: char -> bool)
    requires forall c | c in s && space(c) :: leading(c)
    ensures var r := Unnumbered(s, space, leading); r == [] || !leading(r[0])
  {
    var rest := DropWhile(s, leading);
    if rest != [] {
      assert rest[0] == s[|s| - |rest|];
      TrimKeepsFirst(rest, space);
    }
  }

  /**
    The cleaning chain shared by the three implementations, over the
    language's whitespace test `space` and the set `leading` of list-number
    characters: cut at the price markers and strip; delete every `*` and `-`
    and strip; drop the leading run of `leading` characters and strip.
   */
  function CleanName(item: string, space: char -> bool, leading: char -> bool): (name: string)
    ensures '*' !in name && '-' !in name
    ensures name == [] || (!space(name[0]) && !space(name[|name| - 1]))
    ensures forall c | c in name :: c in item
    ensures |name| <= |PricePrefix(item)|
  {
    Unnumbered(Unstarred(Priced(item, space), space), space, leading)
  }

  /** The TypeScript chain: `trim()` and the class `[0-9.-\s]`. */
  function TsCleanName(item: string): (name: string)
  {
    CleanName(item, IsJsSpace, IsTsLeading)
  }

  /**
    The Python chain: `strip()`, and `lstrip('0123456789.- ')`, which treats
    only the plain space as whitespace.
   */
  function PyCleanName(item: string): (name: string)
  {
    CleanName(item, IsPySpace, IsPyLeading)
  }

  /**
    When every whitespace character of the line is also a list-number
    character, the name starts with neither.
   */
  lemma CleanNameUnnumbered(item: string, space: char -> bool, leading: char -> bool)
    requires forall c | c in item && space(c) :: leading(c)
    ensures var name := CleanName(item, space, leading); name == [] || !leading(name[0])
  {
    var bare := Unstarred(Priced(item, space), space);
    assert forall c | c in bare :: c in item;
    UnnumberedNotLeading(bare, space, leading);
  }

  /**
    A TypeScript name is free of asterisks and dashes, has no surrounding
    whitespace, draws its characters from the line, and does not start with a
    digit, a dot or a dash.
   */
  lemma TsCleanNameShape(item: string)
    ensures var name := TsCleanName(item);
      && '*' !in name && '-' !in name
      && (name == [] || (!IsJsSpace(name[0]) && !IsJsSpace(name[|name| - 1])))
      && (name == [] || !IsTsLeading(name[0]))
      && (forall c | c in name :: c in item)
  {
    CleanNameUnnumbered(item, IsJsSpace, IsTsLeading);
  }

  /** The TypeScript rejection test: fewer than 3 UTF-16 units, or a category header. */
  predicate TsRejected(name: string)
  {
    Utf16Length(name) < 3 || Lower(name) in CategoryHeaders
  }

  /** The Python rejection test: fewer than 3 characters, or a category header. */
  predicate PyRejected(name: string)
  {
    |name| < 3 || Lower(name) in CategoryHeaders
  }

  /** A string without a price marker is its own price prefix. */
  lemma PricePrefixOfUnpriced(name: string)
    requires '-' !in name && !IsInfix(SpacePrice, name)
    ensures PricePrefix(name) == name
  {
    assert '-' in DashPrice;
    MissingElementNotInfix(DashPrice, name, '-');
    BeforeIsPrefix(name, DashPrice);
    BeforeIsPrefix(name, SpacePrice);
  }

  /** A string holding `" $"` but no `-` has a strictly shorter price prefix. */
  lemma PricePrefixOfPriced(name: string)
    requires '-' !in name && IsInfix(SpacePrice, name)
    ensures |PricePrefix(name)| < |name|
  {
    assert '-' in DashPrice;
    MissingElementNotInfix(DashPrice, name, '-');
    BeforeIsPrefix(name, DashPrice);
    BeforeIsPrefix(name, SpacePrice);
  }

  /** Stage one leaves a trimmed name without price marker or `-` alone. */
  lemma PricedOfTidy(name: string, space: char -> bool)
    requires '-' !in name && !IsInfix(SpacePrice, name)
    requires name == [] || (!space(name[0]) && !space(name[|name| - 1]))
    ensures Priced(name, space) == name
  {
    PricePrefixOfUnpriced(name);
    TrimTrimmed(name, space);
  }

  /** Stage two leaves a trimmed name without `*` or `-` alone. */
  lemma UnstarredOfTidy(name: string, space: char -> bool)
    requires '*' !in name && '-' !in name
    requires name == [] || (!space(name[0]) && !space(name[|name| - 1]))
    ensures Unstarred(name, space) == name
  {
    RemoveAbsent(name, '*');
    RemoveAbsent(name, '-');
    TrimTrimmed(name, space);
  }

  /** On a trimmed name without price marker, `*` or `-`, only stage three can change anything. */
  lemma CleanNameOfTidy(name: string, space: char -> bool, leading: char -> bool)
    requires '*' !in name && '-' !in name && !IsInfix(SpacePrice, name)
    requires name == [] || (!space(name[0]) && !space(name[|name| - 1]))
    ensures CleanName(name, space, leading) == Unnumbered(name, space, leading)
  {
    PricedOfTidy(name, space);
    UnstarredOfTidy(name, space);
  }

  /** Stage three leaves a trimmed name alone exactly when it does not start with a list-number character. */
  lemma UnnumberedFixedPoints(name: string, space: char -> bool, leading: char -> bool)
    requires name == [] || (!space(name[0]) && !space(name[|name| - 1]))
    ensures Unnumbered(name, space, leading) == name <==> name == [] || !leading(name[0])
  {
    if name != [] && leading(name[0]) {
      assert |DropWhile(name, leading)| < |name|;
    } else {
      assert DropWhile(name, leading) == name;
      TrimTrimmed(name, space);
    }
  }

  /**
    Cleaning is not idempotent: a cleaned name survives a second pass
    unchanged exactly when it holds no `" $"` and does not start with a
    list-number character.
   */
  lemma CleanNameFixedPoints(item: string, space: char -> bool, leading: char -> bool)
    ensures var name := CleanName(item, space, leading);
      CleanName(name, space, leading) == name <==> !IsInfix(SpacePrice, name) && (name == [] || !leading(name[0]))
  {
    var name := CleanName(item, space, leading);
    if IsInfix(SpacePrice, name) {
      PricePrefixOfPriced(name);
    } else {
      CleanNameOfTidy(name, space, leading);
      UnnumberedFixedPoints(name, space, leading);
    }
  }

  /**
    A TypeScript name survives a second pass unchanged exactly when it no
    longer holds `" $"`.
   */
  lemma TsCleanNameFixedPoints(item: string)
    ensures TsCleanName(TsCleanName(item)) == TsCleanName(item) <==> !IsInfix(SpacePrice, TsCleanName(item))
  {
    CleanNameFixedPoints(item, IsJsSpace, IsTsLeading);
    CleanNameUnnumbered(item, IsJsSpace, IsTsLeading);
  }

  /**
    A Python name survives a second pass unchanged exactly when it holds no
    `" $"` and does not start with a digit, a dot or a dash, which it can
    when the line separated the number from the name with a tab.
   */
  lemma PyCleanNameFixedPoints(item: string)
    ensures var name := PyCleanName(item);
      PyCleanName(name) == name <==> !IsInfix(SpacePrice, name) && (name == [] || !IsPyLeading(name[0]))
  {
    CleanNameFixedPoints(item, IsPySpace, IsPyLeading);
  }

  /**
    `"1\t7Up"`: Python's `lstrip` stops at the tab, so the name keeps the
    `7` and starts with a digit.
   */
  lemma PyTabSeparatedNumbering()
    ensures PyCleanName("1\t7Up") == "7Up"
  {
    TabLineIsTidy(IsPySpace, IsPyLeading);
    TabSeparatedPyDrop();
  }

  /** The TypeScript class `[0-9.-\s]` also consumes the tab and the `7` of `"1\t7Up"`. */
  lemma TsTabSeparatedNumbering()
    ensures TsCleanName("1\t7Up") == "Up"
  {
    TabLineIsTidy(IsJsSpace, IsTsLeading);
    TabSeparatedTsDrop();
    TrimTrimmed("Up", IsJsSpace);
  }

  lemma TabLineIsTidy(space: char -> bool, leading: char -> bool)
    requires !space('1') && !space('p')
    ensures CleanName("1\t7Up", space, leading) == Unnumbered("1\t7Up", space, leading)
  {
    var item := "1\t7Up";
    assert '$' in SpacePrice && '$' !in item;
    MissingElementNotInfix(SpacePrice, item, '$');
    assert item[0] == '1' && item[|item| - 1] == 'p';
    CleanNameOfTidy(item, space, leading);
  }

  lemma TabSeparatedPyDrop()
    ensures Trim(DropWhile("1\t7Up", IsPyLeading), IsPySpace) == "7Up"
  {
    assert "1\t7Up" == "1" + "\t7Up";
    DropWhileRun("1", "\t7Up", IsPyLeading);
    TabThenName();
  }

  lemma TabThenName()
    ensures Trim("\t7Up", IsPySpace) == "7Up"
  {
    assert "\t7Up" == "\t" + "7Up";
    TrimRun("\t", "7Up", IsPySpace);
  }

  lemma TabSeparatedTsDrop()
    ensures DropWhile("1\t7Up", IsTsLeading) == "Up"
  {
    assert "1\t7Up" == "1\t7" + "Up";
    DropWhileRun("1\t7", "Up", IsTsLeading);
  }

  /**
    When a line has no whitespace but plain spaces, the Python name does not
    start with a digit, a dot or a dash either, like the TypeScript one.
   */
  lemma PyCleanNameUnnumbered(item: string)
    requires forall c | c in item && IsPySpace(c) :: c == ' '
    ensures var name := PyCleanName(item); name == [] || !IsPyLeading(name[0])
  {
    CleanNameUnnumbered(item, IsPySpace, IsPyLeading);
  }

  /** Chains whose tests agree on every character of the line compute the same name. */
  lemma CleanNameAgree(item: string, space: char -> bool, leading: char -> bool, space': char -> bool, leading': char -> bool)
    requires forall c | c in item :: space(c) == space'(c) && leading(c) == leading'(c)
    ensures CleanName(item, space, leading) == CleanName(item, space', leading')
  {
    var p := PricePrefix(item);
    assert forall c | c in p :: c in item by {
      forall c | c in p ensures c in item {
        var k :| 0 <= k < |p| && p[k] == c;
        assert item[k] == c;
      }
    }
    TrimAgree(p, space, space');
    var priced := Priced(item, space);
    var removed := RemoveAll(RemoveAll(priced, '*'), '-');
    assert forall c | c in removed :: c in item;
    TrimAgree(removed, space, space');
    var bare := Unstarred(priced, space);
    assert bare == Unstarred(priced, space');
    DropWhileAgree(bare, leading, leading');
    var rest := DropWhile(bare, leading);
    assert forall c | c in rest :: c in item;
    TrimAgree(rest, space, space');
    assert Unnumbered(bare, space, leading) == Unnumbered(bare, space', leading');
  }

  /**
    On a line whose only whitespace is the plain space, the TypeScript and
    Python chains compute the same name.
   */
  lemma CleanNamesAgree(item: string)
    requires forall c | c in item :: c == ' ' || (!IsJsSpace(c) && !IsPySpace(c))
    ensures TsCleanName(item) == PyCleanName(item)
  {
    CleanNameAgree(item, IsJsSpace, IsTsLeading, IsPySpace, IsPyLeading);
  }
}
