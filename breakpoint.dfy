/**
 * Responsive modifiers: a modifier paired with the breakpoint from which it applies,
 * rendered as the modifier's class name followed by the breakpoint's suffix
 * (`Grow.on(Lg)` renders as "pf-m-grow-on-lg").
 *
 * `T: ToString` becomes an explicit `show: T -> string`.
 */
module Breakpoints {

  datatype Breakpoint = None | Small | Medium | Large | XLarge | XXLarge

  /** `Breakpoint::to_string`. */
  function Suffix(b: Breakpoint): string {
    match b
    case None => ""
    case Small => "-on-sm"
    case Medium => "-on-md"
    case Large => "-on-lg"
    case XLarge => "-on-xl"
    case XXLarge => "-on-2xl"
  }

  /** Every breakpoint has its own suffix; only `None` has the empty one. */
  lemma SuffixInjective(a: Breakpoint, b: Breakpoint)
    ensures Suffix(a) == Suffix(b) <==> a == b
    ensures Suffix(a) == "" <==> a == None
    ensures a != None ==> |Suffix(a)| >= 4 && Suffix(a)[..4] == "-on-"
  {
  }

  datatype WithBreakpoint<T> = WithBreakpoint(modifier: T, on: Breakpoint)

  /** `WithBreakpoint::map`: transform the modifier, keep the breakpoint. */
  function Map<T, R>(w: WithBreakpoint<T>, f: T -> R): WithBreakpoint<R> {
    WithBreakpoint(f(w.modifier), w.on)
  }

  /** `map` is structure preserving: identity and composition laws. */
  lemma MapLaws<T, R, S>(w: WithBreakpoint<T>, f: T -> R, g: R -> S)
    ensures Map(w, (x: T) => x) == w
    ensures Map(Map(w, f), g) == Map(w, (x: T) => g(f(x)))
    ensures Map(w, f).on == w.on
  {
  }

  /** `WithBreakpointExt::on`. */
  function On<T>(modifier: T, breakpoint: Breakpoint): WithBreakpoint<T> {
    WithBreakpoint(modifier, breakpoint)
  }

  function All<T>(modifier: T): WithBreakpoint<T> { On(modifier, None) }
  function Sm<T>(modifier: T): WithBreakpoint<T> { On(modifier, Small) }
  function Md<T>(modifier: T): WithBreakpoint<T> { On(modifier, Medium) }
  function Lg<T>(modifier: T): WithBreakpoint<T> { On(modifier, Large) }
  function Xl<T>(modifier: T): WithBreakpoint<T> { On(modifier, XLarge) }
  function Xxl<T>(modifier: T): WithBreakpoint<T> { On(modifier, XXLarge) }

  /** `From<T> for WithBreakpoint<T>`: applies at every size. */
  function FromModifier<T>(modifier: T): WithBreakpoint<T> {
    WithBreakpoint(modifier, None)
  }

  /** `WithBreakpoint::to_string`: the modifier's string, then the suffix. */
  function Render<T>(w: WithBreakpoint<T>, show: T -> string): string {
    show(w.modifier) + Suffix(w.on)
  }

  /** What each shorthand renders to. */
  lemma ShorthandsRender<T>(m: T, show: T -> string)
    ensures Render(All(m), show) == show(m)
    ensures Render(FromModifier(m), show) == show(m) && FromModifier(m) == All(m)
    ensures Render(Sm(m), show) == show(m) + "-on-sm"
    ensures Render(Md(m), show) == show(m) + "-on-md"
    ensures Render(Lg(m), show) == show(m) + "-on-lg"
    ensures Render(Xl(m), show) == show(m) + "-on-xl"
    ensures Render(Xxl(m), show) == show(m) + "-on-2xl"
  {
  }

  /** The rendered string starts with the modifier's string and ends with the suffix. */
  lemma RenderSplits<T>(w: WithBreakpoint<T>, show: T -> string)
    ensures |Render(w, show)| == |show(w.modifier)| + |Suffix(w.on)|
    ensures Render(w, show)[..|show(w.modifier)|] == show(w.modifier)
    ensures Render(w, show)[|show(w.modifier)|..] == Suffix(w.on)
  {
  }

  /** One modifier on two different breakpoints renders two different class names. */
  lemma RenderDistinguishesBreakpoints<T>(m: T, a: Breakpoint, b: Breakpoint, show: T -> string)
    ensures Render(On(m, a), show) == Render(On(m, b), show) <==> a == b
  {
    var p := show(m);
    if Render(On(m, a), show) == Render(On(m, b), show) {
      assert Suffix(a) == (p + Suffix(a))[|p|..] == (p + Suffix(b))[|p|..] == Suffix(b);
      SuffixInjective(a, b);
    }
  }

  /** Rendering a mapped modifier is rendering the original through the mapping. */
  lemma RenderMap<T, R>(w: WithBreakpoint<T>, f: T -> R, show: R -> string)
    ensures Render(Map(w, f), show) == Render(w, (x: T) => show(f(x)))
  {
  }

  datatype WithBreakpoints<T> = WithBreakpoints(items: seq<WithBreakpoint<T>>)

  /** `Vec::iter().map(|i| i.map(f)).collect()`. */
  function MapEach<T, R>(items: seq<WithBreakpoint<T>>, f: T -> R): (r: seq<WithBreakpoint<R>>)
    ensures |r| == |items|
    ensures forall i :: 0 <= i < |items| ==> r[i] == Map(items[i], f)
  {
    if items == [] then [] else [Map(items[0], f)] + MapEach(items[1..], f)
  }

  /** `WithBreakpoints::mapped`. */
  function Mapped<T, R>(ws: WithBreakpoints<T>, f: T -> R): WithBreakpoints<R> {
    WithBreakpoints(MapEach(ws.items, f))
  }

  /** `mapped` keeps length, order and breakpoints, and mapping the identity changes nothing. */
  lemma MappedLaws<T, R, S>(ws: WithBreakpoints<T>, f: T -> R, g: R -> S)
    ensures |Mapped(ws, f).items| == |ws.items|
    ensures forall i :: 0 <= i < |ws.items| ==>
      Mapped(ws, f).items[i].on == ws.items[i].on && Mapped(ws, f).items[i].modifier == f(ws.items[i].modifier)
    ensures Mapped(ws, (x: T) => x) == ws
    ensures Mapped(Mapped(ws, f), g) == Mapped(ws, (x: T) => g(f(x)))
  {
    var id := (x: T) => x;
    assert Mapped(ws, id).items == ws.items;
    var gf := (x: T) => g(f(x));
    assert Mapped(Mapped(ws, f), g).items == Mapped(ws, gf).items;
  }

  /** `From<WithBreakpoint<T>> for WithBreakpoints<T>`. */
  function FromItem<T>(w: WithBreakpoint<T>): WithBreakpoints<T> {
    WithBreakpoints([w])
  }

  /** `From<T> for WithBreakpoints<T>`. */
  function FromModifiers<T>(modifier: T): WithBreakpoints<T> {
    FromItem(FromModifier(modifier))
  }

  /** `as_classes` and `From<WithBreakpoints<T>> for Classes`: one class name per item. */
  function AsClasses<T>(items: seq<WithBreakpoint<T>>, show: T -> string): (r: seq<string>)
    ensures |r| == |items|
    ensures forall i :: 0 <= i < |items| ==> r[i] == Render(items[i], show)
  {
    if items == [] then [] else [Render(items[0], show)] + AsClasses(items[1..], show)
  }

  /** `Into<Classes> for WithBreakpoint<T>` is the one-item list's class list. */
  function IntoClasses<T>(w: WithBreakpoint<T>, show: T -> string): seq<string> {
    [Render(w, show)]
  }

  /** The class lists of the single-item conversions. */
  lemma SingleClasses<T>(m: T, w: WithBreakpoint<T>, show: T -> string)
    ensures AsClasses(FromItem(w).items, show) == IntoClasses(w, show)
    ensures AsClasses(FromModifiers(m).items, show) == [show(m)]
  {
    ShorthandsRender(m, show);
  }

  /** The class list of a concatenation is the concatenation of the class lists. */
  lemma {:induction false} AsClassesConcat<T>(a: seq<WithBreakpoint<T>>, b: seq<WithBreakpoint<T>>, show: T -> string)
    ensures AsClasses(a + b, show) == AsClasses(a, show) + AsClasses(b, show)
  {
    if a != [] {
      assert (a + b)[1..] == a[1..] + b;
      AsClassesConcat(a[1..], b, show);
    } else {
      assert a + b == b;
    }
  }

  /** The class list of a mapped list is the original's, rendered through the mapping. */
  lemma AsClassesMapped<T, R>(ws: WithBreakpoints<T>, f: T -> R, show: R -> string)
    ensures AsClasses(Mapped(ws, f).items, show) == AsClasses(ws.items, (x: T) => show(f(x)))
  {
    var sf := (x: T) => show(f(x));
    forall i | 0 <= i < |ws.items|
      ensures AsClasses(Mapped(ws, f).items, show)[i] == AsClasses(ws.items, sf)[i]
    {
      RenderMap(ws.items[i], f, show);
    }
  }
}
