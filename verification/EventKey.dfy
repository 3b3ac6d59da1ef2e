/** The event key of an asset does not depend on the order in which its albums and people are listed. */
module EventKey {
  import opened Permutations
  import opened PyText
  import opened StringOrder

  datatype Person = Person(name: string, id: string)

  predicate AtMost(a: string, b: string) {
    !Less(b, a)
  }

  predicate InOrder(xs: seq<string>) {
    forall i, j :: 0 <= i < j < |xs| ==> AtMost(xs[i], xs[j])
  }

  function Insert(x: string, xs: seq<string>): seq<string> {
    if xs == [] || AtMost(x, xs[0]) then [x] + xs else [xs[0]] + Insert(x, xs[1..])
  }

  /** Python's `sorted`. */
  function Sorted(xs: seq<string>): seq<string> {
    if xs == [] then [] else Insert(xs[0], Sorted(xs[1..]))
  }

  /** A person's slug: of the name, else of the id, else none. */
  function PersonSlug(p: Person, slug: string -> string): seq<string> {
    if p.name != "" then [slug(p.name)] else if p.id != "" then [slug(p.id)] else []
  }

  /** The slugs of all items of a list, in order. */
  function Slugs<T>(items: seq<T>, slugs: T -> seq<string>): seq<string> {
    if items == [] then [] else slugs(items[0]) + Slugs(items[1..], slugs)
  }

  function PeopleSlugs(people: seq<Person>, slug: string -> string): seq<string> {
    Slugs(people, (p: Person) => PersonSlug(p, slug))
  }

  function AlbumSlugs(albums: seq<string>, slug: string -> string): seq<string> {
    Slugs(albums, (album: string) => [slug(album)])
  }

  function NonEmpty(parts: seq<string>): seq<string> {
    if parts == [] then []
    else (if parts[0] != "" then [parts[0]] else []) + NonEmpty(parts[1..])
  }

  /** The key composed of day, place, up to four people and up to two albums; `slug` is the normalisation of names. */
  function Key(day: string, place: string, people: seq<Person>, albums: seq<string>,
      slug: string -> string): Option<string> {
    var personPart := Join("-", Take(Sorted(PeopleSlugs(people, slug)), 4));
    var albumPart := Join("-", Take(Sorted(AlbumSlugs(albums, slug)), 2));
    var parts := NonEmpty([day, place, personPart, albumPart]);
    if parts == [] then None else Some(Join("::", parts))
  }

  // ---- Sorting ----

  lemma {:induction false} InsertSorts(x: string, xs: seq<string>)
    requires InOrder(xs)
    ensures InOrder(Insert(x, xs)) && multiset(Insert(x, xs)) == multiset{x} + multiset(xs)
    decreases |xs|
  {
    if xs != [] && AtMost(x, xs[0]) {
      forall j | 0 <= j < |xs| ensures AtMost(x, xs[j]) { AtMostTransitive(x, xs[0], xs[j]); }
    } else if xs != [] {
      var rest := xs[1..];
      assert xs == [xs[0]] + rest;
      InsertSorts(x, rest);
      LessTotal(x, xs[0]);
      LessAsymmetric(x, xs[0]);
      forall y | y in Insert(x, rest) ensures AtMost(xs[0], y) {
        assert y in multiset(Insert(x, rest));
        assert y == x || y in rest;
      }
    }
  }

  lemma AtMostTransitive(a: string, b: string, c: string)
    requires AtMost(a, b) && (b == c || AtMost(b, c))
    ensures AtMost(a, c)
  {
    if Less(c, a) {
      LessTotal(a, b);
      LessTotal(b, c);
      if a != b && b != c { LessTransitive(a, b, c); }
      LessAsymmetric(a, c);
    }
  }

  lemma {:induction false} SortedSorts(xs: seq<string>)
    ensures InOrder(Sorted(xs)) && multiset(Sorted(xs)) == multiset(xs)
  {
    if xs != [] {
      SortedSorts(xs[1..]);
      InsertSorts(xs[0], Sorted(xs[1..]));
      assert xs == [xs[0]] + xs[1..];
    }
  }

  /** Lists in order with the same elements are equal. */
  lemma {:induction false} InOrderUnique(xs: seq<string>, ys: seq<string>)
    requires InOrder(xs) && InOrder(ys) && multiset(xs) == multiset(ys)
    ensures xs == ys
    decreases |xs|
  {
    assert |xs| == |multiset(xs)| == |multiset(ys)| == |ys|;
    if xs != [] {
      var x, y := xs[0], ys[0];
      assert x in multiset(ys) && y in multiset(xs);
      FirstIsLeast(xs, y);
      FirstIsLeast(ys, x);
      LessTotal(x, y);
      assert xs == [x] + xs[1..] && ys == [y] + ys[1..];
      TailsMatch(x, xs[1..], ys[1..]);
      InOrderUnique(xs[1..], ys[1..]);
    }
  }

  lemma TailsMatch(x: string, xs: seq<string>, ys: seq<string>)
    requires multiset([x] + xs) == multiset([x] + ys)
    ensures multiset(xs) == multiset(ys)
  {
    assert multiset(xs) == multiset([x] + xs) - multiset{x};
    assert multiset(ys) == multiset([x] + ys) - multiset{x};
  }

  lemma FirstIsLeast(xs: seq<string>, y: string)
    requires InOrder(xs) && y in xs
    ensures AtMost(xs[0], y)
  {
    LessAsymmetric(y, y);
  }

  // ---- Permutations ----

  lemma SlugsCons<T>(item: T, items: seq<T>, slugs: T -> seq<string>)
    ensures Slugs([item] + items, slugs) == slugs(item) + Slugs(items, slugs)
  {
    assert ([item] + items)[1..] == items;
  }

  lemma {:induction false} SlugsConcat<T>(a: seq<T>, b: seq<T>, slugs: T -> seq<string>)
    ensures Slugs(a + b, slugs) == Slugs(a, slugs) + Slugs(b, slugs)
  {
    if a == [] {
      assert a + b == b;
    } else {
      SlugsConcat(a[1..], b, slugs);
      SlugsStep(a[0], a[1..], b, slugs);
      assert a == [a[0]] + a[1..];
    }
  }

  lemma SlugsStep<T>(item: T, rest: seq<T>, b: seq<T>, slugs: T -> seq<string>)
    requires Slugs(rest + b, slugs) == Slugs(rest, slugs) + Slugs(b, slugs)
    ensures Slugs([item] + rest + b, slugs) == Slugs([item] + rest, slugs) + Slugs(b, slugs)
  {
    Regroup([item], rest, b);
    SlugsCons(item, rest + b, slugs);
    SlugsCons(item, rest, slugs);
    Regroup(slugs(item), Slugs(rest, slugs), Slugs(b, slugs));
  }

  lemma {:induction false} SlugsPermute<T>(a: seq<T>, b: seq<T>, slugs: T -> seq<string>)
    requires multiset(a) == multiset(b)
    ensures multiset(Slugs(a, slugs)) == multiset(Slugs(b, slugs))
    decreases |a|
  {
    if a == [] {
      assert |b| == |multiset(b)| == 0;
    } else {
      assert a == [a[0]] + a[1..];
      var left, right := TakeOut(a[0], a[1..], b);
      SlugsPermute(a[1..], left + right, slugs);
      SlugsConcat([a[0]], a[1..], slugs);
      SlugsConcat(left + [a[0]], right, slugs);
      SlugsConcat(left, [a[0]], slugs);
      SlugsConcat(left, right, slugs);
      PutIn(Slugs(a[1..], slugs), Slugs([a[0]], slugs), Slugs(left, slugs), Slugs(right, slugs));
    }
  }

  /** Main result: listing people and albums in another order gives the same key, however names are normalised. */
  lemma KeyOrderIrrelevant(day: string, place: string, people: seq<Person>, people': seq<Person>,
                           albums: seq<string>, albums': seq<string>, slug: string -> string)
    requires multiset(people) == multiset(people') && multiset(albums) == multiset(albums')
    ensures Key(day, place, people, albums, slug) == Key(day, place, people', albums', slug)
  {
    SlugsPermute(people, people', (p: Person) => PersonSlug(p, slug));
    SlugsPermute(albums, albums', (album: string) => [slug(album)]);
    SameSorted(PeopleSlugs(people, slug), PeopleSlugs(people', slug));
    SameSorted(AlbumSlugs(albums, slug), AlbumSlugs(albums', slug));
  }

  /** The parts of a key put together, a separator wherever there is something on both sides. */
  ghost function Glued(parts: seq<string>): string {
    if parts == [] then ""
    else
      var rest := Glued(parts[1..]);
      parts[0] + (if parts[0] != "" && rest != "" then "::" else "") + rest
  }

  /** `ordered` are the texts in order. */
  ghost predicate Orders(ordered: seq<string>, texts: seq<string>) {
    InOrder(ordered) && multiset(ordered) == multiset(texts)
  }

  /**
   Main result: the key is made of the day, the place, the four least names of people and the two least of
   albums, as far as there are any; without any of them there is no key.
   */
  lemma KeyIs(day: string, place: string, people: seq<Person>, albums: seq<string>, slug: string -> string,
              persons: seq<string>, titles: seq<string>, key: Option<string>)
    requires Orders(persons, PeopleSlugs(people, slug)) && Orders(titles, AlbumSlugs(albums, slug))
    ensures key == Key(day, place, people, albums, slug) <==>
              var few := if |persons| > 4 then persons[..4] else persons;
              var fewer := if |titles| > 2 then titles[..2] else titles;
              var all := Glued([day, place, Join("-", few), Join("-", fewer)]);
              key == if all == "" then None else Some(all)
  {
    OrderedIs(persons, PeopleSlugs(people, slug));
    OrderedIs(titles, AlbumSlugs(albums, slug));
    JoinIsGlued([day, place, Join("-", Take(persons, 4)), Join("-", Take(titles, 2))]);
  }

  lemma OrderedIs(ordered: seq<string>, texts: seq<string>)
    requires Orders(ordered, texts)
    ensures ordered == Sorted(texts)
  {
    SortedSorts(texts);
    InOrderUnique(ordered, Sorted(texts));
  }

  lemma {:induction false} JoinIsGlued(parts: seq<string>)
    ensures Join("::", NonEmpty(parts)) == Glued(parts) && (NonEmpty(parts) == [] <==> Glued(parts) == "")
  {
    if parts != [] {
      JoinIsGlued(parts[1..]);
      var rest := NonEmpty(parts[1..]);
      assert ([parts[0]] + rest)[1..] == rest;
      if parts[0] == "" {
        assert NonEmpty(parts) == rest;
      } else {
        JoinFirst(parts[0], rest);
      }
    }
  }

  lemma JoinFirst(part: string, rest: seq<string>)
    ensures Join("::", [part] + rest) == part + (if rest == [] then "" else "::" + Join("::", rest))
  {
    assert ([part] + rest)[1..] == rest;
  }

  /** The people that count are those with a name or an id; the name comes first. */
  lemma {:induction false} PeopleSlugsAre(people: seq<Person>, slug: string -> string, s: string)
    ensures s in PeopleSlugs(people, slug) <==>
              exists p :: p in people && (p.name != "" || p.id != "")
                          && s == slug(if p.name == "" then p.id else p.name)
  {
    if people != [] {
      PeopleSlugsAre(people[1..], slug, s);
      assert people == [people[0]] + people[1..];
    }
  }

  lemma SameSorted(xs: seq<string>, ys: seq<string>)
    requires multiset(xs) == multiset(ys)
    ensures Sorted(xs) == Sorted(ys)
  {
    SortedSorts(xs);
    SortedSorts(ys);
    InOrderUnique(Sorted(xs), Sorted(ys));
  }
}
