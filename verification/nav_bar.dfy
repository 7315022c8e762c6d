/** The helpers of the navigation bar (react/src/components/NavBar.jsx): the
    `classNames` combinator that builds a `className` attribute, and the three
    entries of the menu with the flag that marks the one for the current route.

    An argument of `classNames` is `None` when it is a non-string falsy value
    (`false`, `null`, `undefined`) and `Some(s)` when it is the string `s`;
    the empty string is falsy too. */
module NavBar {
  import opened Wrappers
  import opened Strings

  /** `Boolean(part)`. */
  predicate Truthy(part: Option<string>) {
    part.Some? && part.value != ""
  }

  /** The strings among the parts, in order, once the falsy ones are dropped. */
  function TruthyParts(parts: seq<Option<string>>): (r: seq<string>)
    ensures |r| <= |parts|
    ensures forall i :: 0 <= i < |r| ==> r[i] != ""
  {
    var kept := Keep(parts, Truthy);
    seq(|kept|, i requires 0 <= i < |kept| => kept[i].value)
  }

  /** `classNames(...classes)`: the truthy parts joined with single spaces,
      which is the empty string exactly when no argument is truthy. */
  function ClassNames(parts: seq<Option<string>>): (r: string)
    ensures r == "" <==> forall i :: 0 <= i < |parts| ==> !Truthy(parts[i])
  {
    JoinEmpty(TruthyParts(parts), ' ');
    NoneKept(parts);
    Join(TruthyParts(parts), ' ')
  }

  /** Dropping the falsy parts distributes over concatenation of the argument list. */
  lemma TruthyPartsConcat(a: seq<Option<string>>, b: seq<Option<string>>)
    ensures TruthyParts(a + b) == TruthyParts(a) + TruthyParts(b)
  {
    KeepConcat(a, b, Truthy);
  }

  /** A single argument contributes its string when truthy and nothing otherwise. */
  lemma TruthyPartsSingle(part: Option<string>)
    ensures TruthyParts([part]) == if Truthy(part) then [part.value] else []
  {
    KeepSingle(part, Truthy);
  }

  /** A join of non-empty strings is empty exactly when there are none. */
  lemma {:induction false} JoinEmpty(parts: seq<string>, sep: char)
    requires forall i :: 0 <= i < |parts| ==> parts[i] != ""
    ensures Join(parts, sep) == "" <==> |parts| == 0
  {
    if |parts| > 1 {
      JoinEmpty(parts[1..], sep);
    }
  }

  lemma {:induction false} NoneKept(parts: seq<Option<string>>)
    ensures |Keep(parts, Truthy)| == 0 <==> forall i :: 0 <= i < |parts| ==> !Truthy(parts[i])
  {
    if |parts| > 0 {
      NoneKept(parts[1..]);
      assert forall i :: 1 <= i < |parts| ==> parts[i] == parts[1..][i - 1];
    }
  }

  /** Splitting the result on spaces gives back the truthy arguments, in order,
      when there is one and none of them holds a space. */
  lemma ClassNamesSplit(parts: seq<Option<string>>)
    requires exists i :: 0 <= i < |parts| && Truthy(parts[i])
    requires forall i :: 0 <= i < |parts| && parts[i].Some? ==> ' ' !in parts[i].value
    ensures Split(ClassNames(parts), ' ') == TruthyParts(parts)
  {
    NoneKept(parts);
    KeptSpaceFree(parts);
    SplitJoin(TruthyParts(parts), ' ');
  }

  lemma {:induction false} KeptSpaceFree(parts: seq<Option<string>>)
    requires forall i :: 0 <= i < |parts| && parts[i].Some? ==> ' ' !in parts[i].value
    ensures forall i :: 0 <= i < |Keep(parts, Truthy)| ==> ' ' !in Keep(parts, Truthy)[i].value
  {
    if |parts| > 0 {
      assert forall i :: 1 <= i < |parts| ==> parts[i] == parts[1..][i - 1];
      KeptSpaceFree(parts[1..]);
    }
  }

  /** Joining two non-empty lists puts one separator between their joins. */
  lemma {:induction false} JoinConcat(x: seq<string>, y: seq<string>, sep: char)
    requires |x| > 0 && |y| > 0
    ensures Join(x + y, sep) == Join(x, sep) + [sep] + Join(y, sep)
  {
    assert (x + y)[0] == x[0];
    assert (x + y)[1..] == x[1..] + y;
    if |x| > 1 {
      JoinConcat(x[1..], y, sep);
    }
  }

  /** `classNames` over a longer argument list: the classes of the first
      arguments, then those of the rest, with one space between them when both
      contribute something. This holds for any strings, including the
      multi-class strings the menu passes. */
  lemma ClassNamesConcat(a: seq<Option<string>>, b: seq<Option<string>>)
    ensures ClassNames(a + b) ==
      if ClassNames(a) == "" then ClassNames(b)
      else if ClassNames(b) == "" then ClassNames(a)
      else ClassNames(a) + " " + ClassNames(b)
  {
    var x, y := TruthyParts(a), TruthyParts(b);
    TruthyPartsConcat(a, b);
    JoinEmpty(x, ' ');
    JoinEmpty(y, ' ');
    if |x| == 0 {
      assert x + y == y;
    } else if |y| == 0 {
      assert x + y == x;
    } else {
      JoinConcat(x, y, ' ');
    }
  }

  /** A single argument gives its own text when truthy, spaces and all. */
  lemma ClassNamesSingle(part: Option<string>)
    ensures ClassNames([part]) == if Truthy(part) then part.value else ""
  {
    TruthyPartsSingle(part);
  }

  /** Two non-empty class strings come out joined by one space. */
  lemma ClassNamesTwo(x: string, y: string)
    requires x != "" && y != ""
    ensures ClassNames([Some(x), Some(y)]) == x + " " + y
  {
    ClassNamesSingle(Some(x));
    ClassNamesSingle(Some(y));
    ClassNamesConcat([Some(x)], [Some(y)]);
    assert [Some(x)] + [Some(y)] == [Some(x), Some(y)];
  }

  /** The menu's calls: three non-empty class strings come out joined by single
      spaces, each kept verbatim. */
  lemma ClassNamesThree(x: string, y: string, z: string)
    requires x != "" && y != "" && z != ""
    ensures ClassNames([Some(x), Some(y), Some(z)]) == x + " " + y + " " + z
  {
    ClassNamesSingle(Some(x));
    ClassNamesSingle(Some(y));
    ClassNamesSingle(Some(z));
    ClassNamesConcat([Some(x)], [Some(y)]);
    assert [Some(x)] + [Some(y)] == [Some(x), Some(y)];
    ClassNamesConcat([Some(x), Some(y)], [Some(z)]);
    assert [Some(x), Some(y)] + [Some(z)] == [Some(x), Some(y), Some(z)];
  }

  /** One entry of the menu. */
  datatype NavItem = NavItem(name: string, href: string, current: bool)

  /** The `navigation` array for the location's `pathname`: the two
      collections are current when the path mentions them anywhere, the point
      of sale only on its exact route. */
  function Navigation(pathname: string): (items: seq<NavItem>)
    ensures |items| == 3
    ensures items[0].name == "Clientes" && items[0].href == "/clientes"
    ensures items[1].name == "Produtos" && items[1].href == "/produtos"
    ensures items[2].name == "Ponto de Venda" && items[2].href == "/pdv"
    ensures forall k :: 0 <= k < 3 && items[k].current ==> Contains(pathname, items[k].href)
    ensures items[0].current <==> Contains(pathname, "/clientes")
    ensures items[1].current <==> Contains(pathname, "/produtos")
    ensures items[2].current <==> pathname == "/pdv"
  {
    ContainsItself(pathname);
    [ NavItem("Clientes", "/clientes", Contains(pathname, "/clientes")),
      NavItem("Produtos", "/produtos", Contains(pathname, "/produtos")),
      NavItem("Ponto de Venda", "/pdv", pathname == "/pdv") ]
  }

  lemma ContainsItself(s: string)
    ensures Contains(s, s)
  {
    assert s[..|s|] == s;
  }

  /** A string contains one at least as long only when the two are equal. */
  lemma ContainsNoLonger(s: string, t: string)
    requires |s| <= |t|
    ensures Contains(s, t) <==> s == t
  {
    ContainsOccurrence(s, t);
    if s == t {
      assert OccursAt(s, t, 0);
    }
    if i :| OccursAt(s, t, i) {
      assert i == 0 && |s| == |t|;
      assert s == s[0..|t|];
    }
  }

  /** On the exact route of the point of sale, only its entry is current. */
  lemma PdvExcludesOthers(pathname: string)
    requires Navigation(pathname)[2].current
    ensures !Navigation(pathname)[0].current && !Navigation(pathname)[1].current
  {
    ContainsNoLonger(pathname, "/clientes");
    ContainsNoLonger(pathname, "/produtos");
  }

  /** On a customer or product route, the point of sale is never current;
      its own entry is. */
  lemma ListRoutes(pathname: string)
    requires pathname == "/clientes" || pathname == "/produtos"
    ensures !Navigation(pathname)[2].current
    ensures Navigation(pathname)[0].current <==> pathname == "/clientes"
    ensures Navigation(pathname)[1].current <==> pathname == "/produtos"
  {
    ContainsNoLonger(pathname, "/clientes");
    ContainsNoLonger(pathname, "/produtos");
  }

  /** The flags are not exclusive: a path can mention two collections. */
  lemma TwoCurrent(pathname: string)
    requires pathname == "/clientes/produtos"
    ensures Navigation(pathname)[0].current && Navigation(pathname)[1].current
  {
    assert OccursAt(pathname, "/clientes", 0);
    assert OccursAt(pathname, "/produtos", 9);
    ContainsOccurrence(pathname, "/clientes");
    ContainsOccurrence(pathname, "/produtos");
  }

  /** Every sub-route of a collection marks that collection's entry. */
  lemma SubRouteIsCurrent(prefix: string, href: string, suffix: string)
    requires href == "/clientes" || href == "/produtos"
    ensures var items := Navigation(prefix + href + suffix);
      (href == "/clientes" ==> items[0].current) && (href == "/produtos" ==> items[1].current)
  {
    var path := prefix + href + suffix;
    assert path[|prefix|..|prefix| + |href|] == href;
    assert OccursAt(path, href, |prefix|);
    ContainsOccurrence(path, href);
  }

  /** Unlike the collections, the point of sale is not current on a longer
      path that starts with its route, such as "/pdv/". */
  lemma PdvSubRouteNotCurrent(suffix: string)
    requires |suffix| > 0
    ensures !Navigation("/pdv" + suffix)[2].current
    ensures Contains("/pdv" + suffix, "/pdv")
  {
    var path := "/pdv" + suffix;
    assert path[0..4] == "/pdv";
    assert OccursAt(path, "/pdv", 0);
    ContainsOccurrence(path, "/pdv");
  }
}
