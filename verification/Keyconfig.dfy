/**
 * The key configuration validator: one pass over lines already told apart by tag and attributes,
 * against the nested grammar it stands for.
 */
module Keyconfig {
  const MAX_BLANKS := 32
  const MAX_COMMENT_BYTES := 4096
  const MAX_CATEGORIES := 64
  const MAX_ACTIONS := 256
  const MAX_TOTAL := 1024
  const KEYS := 18

  datatype Meta = Version | Controller | Keyboard | Mouse

  /** A line with acceptable attributes, or Malformed. An identifier is given in its canonical decimal form. */
  datatype Line =
    | Blank
    | Comment(length: nat)
    | Declaration
    | OpenRoot
    | CloseRoot
    | Metadata(meta: Meta)
    | OpenCategory(id: nat, name: string)
    | CloseCategory
    | OpenAction(id: nat, name: string)
    | CloseAction
    | KeyData(key: nat, subkey: nat)
    | Malformed

  predicate Noise(l: Line) { l.Blank? || l.Comment? }

  // ------------------------------------------------------------------
  // The grammar.

  datatype Key = Key(key: nat, subkey: nat)

  datatype Action = Action(name: string, keys: seq<Key>)

  datatype Category = Category(name: string, actions: seq<Action>)

  datatype Document = Document(declared: bool, metas: seq<Meta>, categories: seq<Category>)
  {
    predicate WellFormed() {
      && MetasOnce(metas) && AllMetas(metas)
      && 1 <= |categories| <= MAX_CATEGORIES && Total(categories) <= MAX_TOTAL
      && forall c :: c in categories ==> CategoryOk(c)
    }

    function Print(): seq<Line> {
      Opening(declared) + PrintMetas(metas) + PrintCategories(categories) + [CloseRoot]
    }
  }

  predicate MetasOnce(metas: seq<Meta>) {
    forall i, j :: 0 <= i < j < |metas| ==> metas[i] != metas[j]
  }

  predicate AllMetas(metas: seq<Meta>) {
    Version in metas && Controller in metas && Keyboard in metas && Mouse in metas
  }

  predicate ActionOk(a: Action) { |a.keys| == KEYS }

  predicate CategoryOk(c: Category) {
    1 <= |c.actions| <= MAX_ACTIONS && forall a :: a in c.actions ==> ActionOk(a)
  }

  function Total(categories: seq<Category>): nat {
    if categories == [] then 0
    else Total(categories[..|categories| - 1]) + |categories[|categories| - 1].actions|
  }

  function Opening(declared: bool): seq<Line> {
    if declared then [Declaration, OpenRoot] else [OpenRoot]
  }

  function PrintMetas(metas: seq<Meta>): seq<Line> {
    if metas == [] then [] else PrintMetas(metas[..|metas| - 1]) + [Metadata(metas[|metas| - 1])]
  }

  function PrintKeys(keys: seq<Key>): seq<Line> {
    if keys == [] then []
    else
      var k := keys[|keys| - 1];
      PrintKeys(keys[..|keys| - 1]) + [KeyData(k.key, k.subkey)]
  }

  function PrintActions(actions: seq<Action>): seq<Line> {
    if actions == [] then []
    else
      var n := |actions| - 1;
      PrintActions(actions[..n]) + PrintAction(n, actions[n])
  }

  function PrintAction(id: nat, a: Action): seq<Line> {
    [OpenAction(id, a.name)] + PrintKeys(a.keys) + [CloseAction]
  }

  function PrintCategories(categories: seq<Category>): seq<Line> {
    if categories == [] then []
    else
      var n := |categories| - 1;
      PrintCategories(categories[..n]) + PrintCategory(n, categories[n])
  }

  function PrintCategory(id: nat, c: Category): seq<Line> {
    [OpenCategory(id, c.name)] + PrintActions(c.actions) + [CloseCategory]
  }

  // ------------------------------------------------------------------
  // The automaton on lines that are not noise.

  datatype State =
    | Rejected
    | State(root: bool, closed: bool, cat: bool, act: bool, declared: bool, metas: set<Meta>,
            category: nat, nextAction: nat, totalActions: nat, keyCount: nat)

  function Initial(): State { State(false, false, false, false, false, {}, 0, 0, 0, 0) }

  function Step(s: State, l: Line): State {
    if s.Rejected? || Noise(l) then s
    else if l.Declaration? then
      if !s.root && !s.declared then s.(declared := true) else Rejected
    else if l.OpenRoot? then
      if s.root then Rejected else s.(root := true)
    else if !s.root || s.closed then Rejected
    else
      match l
      case CloseRoot =>
        if s.cat || s.act || s.category == 0 || s.totalActions == 0 then Rejected else s.(closed := true)
      case CloseCategory =>
        if !s.cat || s.act || s.nextAction == 0 then Rejected else s.(cat := false)
      case CloseAction =>
        if !s.act || s.keyCount != KEYS then Rejected else s.(act := false)
      case Metadata(m) =>
        if m in s.metas || s.cat then Rejected else s.(metas := s.metas + {m})
      case OpenCategory(id, _) =>
        if s.cat || s.act || s.category >= MAX_CATEGORIES || s.metas != {Version, Controller, Keyboard, Mouse}
           || id != s.category then Rejected
        else s.(cat := true, category := s.category + 1, nextAction := 0)
      case OpenAction(id, _) =>
        if !s.cat || s.act || s.nextAction >= MAX_ACTIONS || s.totalActions >= MAX_TOTAL || id != s.nextAction then Rejected
        else s.(act := true, nextAction := s.nextAction + 1, totalActions := s.totalActions + 1, keyCount := 0)
      case KeyData(_, _) =>
        if !s.act || s.keyCount >= KEYS then Rejected else s.(keyCount := s.keyCount + 1)
      case _ => Rejected
  }

  function Run(s: State, ls: seq<Line>): State
    decreases |ls|
  {
    if ls == [] then s else Run(Step(s, ls[0]), ls[1..])
  }

  predicate Accepting(s: State) {
    s.State? && s.closed && !s.cat && !s.act
  }

  lemma {:induction false} RunJoined(s: State, a: seq<Line>, b: seq<Line>)
    ensures Run(s, a + b) == Run(Run(s, a), b)
    decreases |a|
  {
    if a == [] {
      assert a + b == b;
    } else {
      assert (a + b)[1..] == a[1..] + b;
      RunJoined(Step(s, a[0]), a[1..], b);
    }
  }

  lemma RunNext(s: State, a: seq<Line>, l: Line)
    ensures Run(s, a + [l]) == Step(Run(s, a), l)
  {
    RunJoined(s, a, [l]);
    assert [l][1..] == [];
  }

  // ------------------------------------------------------------------
  // What has been read so far, as a part of a document.

  /** The place in the document: before the root, in it, in a category, in an action, behind it. */
  datatype Place = Before | InRoot | InCategory(name: string, actions: seq<Action>)
                 | InAction(name: string, actions: seq<Action>, action: string, keys: seq<Key>) | Behind

  datatype Part = Part(declared: bool, metas: seq<Meta>, categories: seq<Category>, place: Place)
  {
    /** What holds of every part of a well-formed document. */
    predicate Ok() {
      && MetasOnce(metas) && |categories| <= MAX_CATEGORIES && (forall c :: c in categories ==> CategoryOk(c))
      && Total(categories) + Open() <= MAX_TOTAL
      && (place.Before? ==> metas == [] && categories == [])
      && (categories != [] || place.InCategory? || place.InAction? || place.Behind? ==> AllMetas(metas))
      && (place.Behind? ==> categories != [])
      && (place.InCategory? || place.InAction? ==> |categories| < MAX_CATEGORIES && Open() <= MAX_ACTIONS
                                                   && forall a :: a in place.actions ==> ActionOk(a))
      && (place.InAction? ==> |place.keys| <= KEYS)
    }

    /** The actions of the category that is not closed yet. */
    function Open(): nat {
      match place
      case InCategory(_, actions) => |actions|
      case InAction(_, actions, _, _) => |actions| + 1
      case _ => 0
    }

    function Print(): seq<Line> {
      if place.Before? then if declared then [Declaration] else []
      else Opening(declared) + PrintMetas(metas) + PrintCategories(categories) + PrintOpen()
    }

    function PrintOpen(): seq<Line> {
      match place
      case InCategory(name, actions) => [OpenCategory(|categories|, name)] + PrintActions(actions)
      case InAction(name, actions, action, keys) =>
        [OpenCategory(|categories|, name)] + PrintActions(actions) + [OpenAction(|actions|, action)] + PrintKeys(keys)
      case Behind => [CloseRoot]
      case _ => []
    }

    function StateOf(): State {
      var cat := place.InCategory? || place.InAction?;
      State(!place.Before?, place.Behind?, cat, place.InAction?, declared, set m | m in metas,
            |categories| + (if cat then 1 else 0), if cat then Open() else LastActions(categories),
            Total(categories) + Open(), if place.InAction? then |place.keys| else if AnyAction() then KEYS else 0)
    }

    predicate AnyAction() {
      Total(categories) > 0 || (place.InCategory? && place.actions != [])
    }
  }

  /** The action counter keeps its last value between categories. */
  function LastActions(categories: seq<Category>): nat {
    if categories == [] then 0 else |categories[|categories| - 1].actions|
  }

  datatype Growth = Stuck | Grown(part: Part)

  /** The part with one more line. */
  function Grow(p: Part, l: Line): Growth {
    match l
    case Declaration =>
      if p.place.Before? && !p.declared then Grown(p.(declared := true)) else Stuck
    case OpenRoot =>
      if p.place.Before? then Grown(p.(place := InRoot)) else Stuck
    case CloseRoot =>
      if p.place.InRoot? && p.categories != [] then Grown(p.(place := Behind)) else Stuck
    case Metadata(m) =>
      if p.place.InRoot? && m !in p.metas then Grown(p.(metas := p.metas + [m])) else Stuck
    case OpenCategory(id, name) =>
      if p.place.InRoot? && |p.categories| < MAX_CATEGORIES && AllMetas(p.metas) && id == |p.categories|
      then Grown(p.(place := InCategory(name, []))) else Stuck
    case CloseCategory =>
      if p.place.InCategory? && p.place.actions != []
      then Grown(p.(categories := p.categories + [Category(p.place.name, p.place.actions)], place := InRoot)) else Stuck
    case OpenAction(id, name) =>
      if p.place.InCategory? && |p.place.actions| < MAX_ACTIONS && Total(p.categories) + |p.place.actions| < MAX_TOTAL
         && id == |p.place.actions|
      then Grown(p.(place := InAction(p.place.name, p.place.actions, name, []))) else Stuck
    case CloseAction =>
      if p.place.InAction? && |p.place.keys| == KEYS
      then Grown(p.(place := InCategory(p.place.name, p.place.actions + [Action(p.place.action, p.place.keys)]))) else Stuck
    case KeyData(key, subkey) =>
      if p.place.InAction? && |p.place.keys| < KEYS
      then Grown(p.(place := p.place.(keys := p.place.keys + [Key(key, subkey)]))) else Stuck
    case _ => Stuck
  }

  lemma Every(m: Meta, metas: seq<Meta>)
    ensures AllMetas(metas) ==> m in metas
  {
    match m
    case Version => case Controller => case Keyboard => case Mouse =>
  }

  /** A grown part is still part of a well-formed document. */
  lemma GrowOk(p: Part, l: Line)
    requires p.Ok() && Grow(p, l).Grown?
    ensures Grow(p, l).part.Ok()
  {
    if l.CloseCategory? {
      GrowCategoryOk(p, l);
    } else if l.CloseAction? {
    } else if l.Metadata? {
      assert l.meta !in p.metas;
    } else {
    }
  }

  lemma GrowCategoryOk(p: Part, l: Line)
    requires p.Ok() && l.CloseCategory? && Grow(p, l).Grown?
    ensures Grow(p, l).part.Ok()
  {
    var c := Category(p.place.name, p.place.actions);
    var categories := p.categories + [c];
    assert categories[..|categories| - 1] == p.categories && CategoryOk(c);
  }

  /** Inside a category only the open piece grows. */
  lemma GrowInside(p: Part, l: Line)
    requires (l.OpenAction? || l.CloseAction? || l.KeyData?) && Grow(p, l).Grown?
    ensures Grow(p, l).part.PrintOpen() == p.PrintOpen() + [l]
  {
    if l.CloseAction? {
    } else if l.KeyData? {
    }
  }

  lemma GrowCategory(p: Part, l: Line)
    requires l.CloseCategory? && Grow(p, l).Grown?
    ensures Grow(p, l).part.Print() == p.Print() + [l]
  {
    var c := Category(p.place.name, p.place.actions);
    assert PrintCategory(|p.categories|, c) == p.PrintOpen() + [l] + [];
  }

  lemma GrowMeta(p: Part, l: Line)
    requires p.Ok() && l.Metadata? && Grow(p, l).Grown?
    ensures Grow(p, l).part.Print() == p.Print() + [l]
  {
    Every(l.meta, p.metas);
    assert p.categories == [];
    assert Opening(p.declared) + (PrintMetas(p.metas) + [l]) == Opening(p.declared) + PrintMetas(p.metas) + [l];
  }

  /** The part prints one more line. */
  lemma GrowPrints(p: Part, l: Line)
    requires p.Ok() && Grow(p, l).Grown?
    ensures Grow(p, l).part.Print() == p.Print() + [l]
  {
    if l.Metadata? {
      GrowMeta(p, l);
    } else if l.CloseCategory? {
      GrowCategory(p, l);
    } else if l.OpenAction? || l.CloseAction? || l.KeyData? {
      GrowInside(p, l);
      var front := Opening(p.declared) + PrintMetas(p.metas) + PrintCategories(p.categories);
      assert front + (p.PrintOpen() + [l]) == front + p.PrintOpen() + [l];
    } else {
    }
  }

  // ------------------------------------------------------------------
  // The automaton's state is all that matters of the part.

  function StateAfter(g: Growth): State {
    if g.Grown? then g.part.StateOf() else Rejected
  }

  lemma {:induction false} TotalPositive(categories: seq<Category>)
    requires categories != [] && forall c :: c in categories ==> CategoryOk(c)
    ensures Total(categories) > 0
  {
    assert CategoryOk(categories[|categories| - 1]);
  }

  lemma StepRoot(p: Part, l: Line)
    requires p.Ok() && (l.Declaration? || l.OpenRoot? || l.CloseRoot? || l.Malformed?)
    ensures Step(p.StateOf(), l) == StateAfter(Grow(p, l))
  {
    if p.categories != [] {
      TotalPositive(p.categories);
    }
  }

  lemma StepCloseCategory(p: Part, l: Line)
    requires p.Ok() && l.CloseCategory?
    ensures Step(p.StateOf(), l) == StateAfter(Grow(p, l))
  {
    if p.place.InCategory? && p.place.actions != [] {
    }
  }

  lemma StepAction(p: Part, l: Line)
    requires p.Ok() && (l.OpenAction? || l.CloseAction? || l.KeyData?)
    ensures Step(p.StateOf(), l) == StateAfter(Grow(p, l))
  {
  }

  /** On every line the automaton does what the part does. */
  lemma StepGrows(p: Part, l: Line)
    requires p.Ok() && !Noise(l)
    ensures Step(p.StateOf(), l) == StateAfter(Grow(p, l))
  {
    if l.Metadata? {
    } else if l.OpenCategory? {
    } else if l.CloseCategory? {
      StepCloseCategory(p, l);
    } else if l.OpenAction? || l.CloseAction? || l.KeyData? {
      StepAction(p, l);
    } else {
      StepRoot(p, l);
    }
  }

  function GrowAll(p: Part, ls: seq<Line>): Growth
    decreases |ls|
  {
    if ls == [] then Grown(p)
    else
      var g := Grow(p, ls[0]);
      if g.Grown? then GrowAll(g.part, ls[1..]) else Stuck
  }

  lemma {:induction false} RunRejected(ls: seq<Line>)
    ensures Run(Rejected, ls) == Rejected
    decreases |ls|
  {
    if ls != [] {
      RunRejected(ls[1..]);
    }
  }

  predicate Structural(ls: seq<Line>) {
    forall l :: l in ls ==> !Noise(l)
  }

  /** A part that has grown over some lines prints them. */
  lemma {:induction false} AllPrinted(p: Part, ls: seq<Line>)
    requires p.Ok() && GrowAll(p, ls).Grown?
    ensures GrowAll(p, ls).part.Ok() && GrowAll(p, ls).part.Print() == p.Print() + ls
    decreases |ls|
  {
    if ls == [] {
      assert p.Print() + [] == p.Print();
    } else {
      GrowOk(p, ls[0]);
      GrowPrints(p, ls[0]);
      var q := Grow(p, ls[0]).part;
      AllPrinted(q, ls[1..]);
      HeadAndTail(p.Print(), ls);
    }
  }

  lemma HeadAndTail<T>(front: seq<T>, s: seq<T>)
    requires s != []
    ensures front + [s[0]] + s[1..] == front + s
  {
  }

  /** Over any lines the automaton does what the part does. */
  lemma {:induction false} RunGrows(p: Part, ls: seq<Line>)
    requires p.Ok() && Structural(ls)
    ensures Run(p.StateOf(), ls) == StateAfter(GrowAll(p, ls))
    decreases |ls|, 0
  {
    if ls != [] {
      assert ls[0] in ls;
      StepGrows(p, ls[0]);
      NextRun(p, ls[0], ls[1..], Grow(p, ls[0]));
      assert ls == [ls[0]] + ls[1..];
    }
  }

  lemma {:induction false} NextRun(p: Part, l: Line, rest: seq<Line>, g: Growth)
    requires p.Ok() && Structural(rest) && g == Grow(p, l) && Step(p.StateOf(), l) == StateAfter(g)
    ensures Run(Step(p.StateOf(), l), rest) == if g.Grown? then StateAfter(GrowAll(g.part, rest)) else Rejected
    decreases |rest|, 1
  {
    if g.Grown? {
      GrowOk(p, l);
      RunGrows(g.part, rest);
    } else {
      RunRejected(rest);
    }
  }

  lemma {:induction false} GrowJoined(p: Part, a: seq<Line>, b: seq<Line>)
    ensures GrowAll(p, a + b) == if GrowAll(p, a).Grown? then GrowAll(GrowAll(p, a).part, b) else Stuck
    decreases |a|
  {
    if a == [] {
      assert a + b == b;
    } else {
      assert (a + b)[1..] == a[1..] + b;
      if Grow(p, a[0]).Grown? {
        GrowJoined(Grow(p, a[0]).part, a[1..], b);
      }
    }
  }

  lemma GrowNext(p: Part, a: seq<Line>, l: Line)
    ensures GrowAll(p, a + [l]) == if GrowAll(p, a).Grown? then Grow(GrowAll(p, a).part, l) else Stuck
  {
    GrowJoined(p, a, [l]);
    assert [l][1..] == [];
  }

  // ------------------------------------------------------------------
  // Every well-formed document grows to its end.

  lemma {:induction false} ReadKeys(p: Part, keys: seq<Key>)
    requires p.place.InAction? && p.place.keys == [] && |keys| <= KEYS
    ensures GrowAll(p, PrintKeys(keys)) == Grown(p.(place := p.place.(keys := keys)))
  {
    if keys != [] {
      var init, k := keys[..|keys| - 1], keys[|keys| - 1];
      ReadKeys(p, init);
      GrowNext(p, PrintKeys(init), KeyData(k.key, k.subkey));
      assert init + [Key(k.key, k.subkey)] == keys;
    }
  }

  lemma ReadAction(p: Part, a: Action)
    requires p.place.InCategory? && ActionOk(a)
    requires |p.place.actions| < MAX_ACTIONS && Total(p.categories) + |p.place.actions| < MAX_TOTAL
    ensures GrowAll(p, PrintAction(|p.place.actions|, a)) == Grown(p.(place := InCategory(p.place.name, p.place.actions + [a])))
  {
    var open, keys := OpenAction(|p.place.actions|, a.name), PrintKeys(a.keys);
    var q := Grow(p, open).part;
    ReadKeys(q, a.keys);
    GrowNext(q, keys, CloseAction);
    assert PrintAction(|p.place.actions|, a) == [open] + (keys + [CloseAction]);
    assert ([open] + (keys + [CloseAction]))[1..] == keys + [CloseAction];
    assert Action(a.name, a.keys) == a;
  }

  lemma {:induction false} ReadActions(p: Part, actions: seq<Action>)
    requires p.place.InCategory? && p.place.actions == [] && (forall a :: a in actions ==> ActionOk(a))
    requires |actions| <= MAX_ACTIONS && Total(p.categories) + |actions| <= MAX_TOTAL
    ensures GrowAll(p, PrintActions(actions)) == Grown(p.(place := InCategory(p.place.name, actions)))
  {
    if actions != [] {
      var n := |actions| - 1;
      var init, a := actions[..n], actions[n];
      assert a in actions;
      ReadActions(p, init);
      GrowJoined(p, PrintActions(init), PrintAction(n, a));
      ReadAction(p.(place := InCategory(p.place.name, init)), a);
      assert init + [a] == actions;
    }
  }

  lemma ReadCategory(p: Part, c: Category)
    requires p.place.InRoot? && AllMetas(p.metas) && |p.categories| < MAX_CATEGORIES && CategoryOk(c)
    requires Total(p.categories) + |c.actions| <= MAX_TOTAL
    ensures GrowAll(p, PrintCategory(|p.categories|, c)) == Grown(p.(categories := p.categories + [c]))
  {
    var open, actions := OpenCategory(|p.categories|, c.name), PrintActions(c.actions);
    var q := Grow(p, open).part;
    ReadActions(q, c.actions);
    GrowNext(q, actions, CloseCategory);
    assert PrintCategory(|p.categories|, c) == [open] + (actions + [CloseCategory]);
    assert ([open] + (actions + [CloseCategory]))[1..] == actions + [CloseCategory];
    assert Category(c.name, c.actions) == c;
  }

  lemma {:induction false} ReadCategories(p: Part, categories: seq<Category>)
    requires p.place.InRoot? && p.categories == [] && AllMetas(p.metas) && (forall c :: c in categories ==> CategoryOk(c))
    requires |categories| <= MAX_CATEGORIES && Total(categories) <= MAX_TOTAL
    ensures GrowAll(p, PrintCategories(categories)) == Grown(p.(categories := categories))
  {
    if categories != [] {
      var n := |categories| - 1;
      var init, c := categories[..n], categories[n];
      assert c in categories;
      ReadCategories(p, init);
      ReadLast(p, init, c);
      assert init + [c] == categories && PrintCategories(categories) == PrintCategories(init) + PrintCategory(n, c);
    }
  }

  lemma ReadLast(p: Part, init: seq<Category>, c: Category)
    requires p.place.InRoot? && p.categories == [] && AllMetas(p.metas) && CategoryOk(c)
    requires |init| < MAX_CATEGORIES && Total(init) + |c.actions| <= MAX_TOTAL
    requires GrowAll(p, PrintCategories(init)) == Grown(p.(categories := init))
    ensures GrowAll(p, PrintCategories(init) + PrintCategory(|init|, c)) == Grown(p.(categories := init + [c]))
  {
    GrowJoined(p, PrintCategories(init), PrintCategory(|init|, c));
    ReadCategory(p.(categories := init), c);
  }

  lemma {:induction false} ReadMetas(p: Part, metas: seq<Meta>)
    requires p.place.InRoot? && p.metas == [] && MetasOnce(metas)
    ensures GrowAll(p, PrintMetas(metas)) == Grown(p.(metas := metas))
  {
    if metas != [] {
      var init, m := metas[..|metas| - 1], metas[|metas| - 1];
      ReadMetas(p, init);
      GrowNext(p, PrintMetas(init), Metadata(m));
      assert init + [m] == metas;
    }
  }

  function Start(): Part { Part(false, [], [], Before) }

  lemma ReadOpening(declared: bool)
    ensures GrowAll(Start(), Opening(declared)) == Grown(Part(declared, [], [], InRoot))
  {
    if declared {
      assert [Declaration, OpenRoot][1..] == [OpenRoot];
      assert [OpenRoot][1..] == [];
    } else {
      assert [OpenRoot][1..] == [];
    }
  }

  lemma ReadDocument(d: Document)
    requires d.WellFormed()
    ensures GrowAll(Start(), d.Print()) == Grown(Part(d.declared, d.metas, d.categories, Behind))
  {
    var p := Part(d.declared, [], [], InRoot);
    var q := p.(metas := d.metas);
    var opening, metas, categories := Opening(d.declared), PrintMetas(d.metas), PrintCategories(d.categories);
    ReadOpening(d.declared);
    ReadMetas(p, d.metas);
    ReadCategories(q, d.categories);
    GrowJoined(Start(), opening, metas);
    GrowJoined(Start(), opening + metas, categories);
    GrowNext(Start(), opening + metas + categories, CloseRoot);
  }

  /** The automaton accepts lines without noise exactly when they print a well-formed document. */
  lemma AcceptsDocuments(ls: seq<Line>)
    requires Structural(ls)
    ensures Accepting(Run(Initial(), ls)) <==> exists d: Document :: d.WellFormed() && d.Print() == ls
  {
    var start := Start();
    assert (set m | m in start.metas) == {};
    assert start.StateOf() == Initial();
    RunGrows(start, ls);
    if GrowAll(start, ls).Grown? {
      AllPrinted(start, ls);
    }
    var g := GrowAll(start, ls);
    if Accepting(Run(Initial(), ls)) {
      var p := g.part;
      var d := Document(p.declared, p.metas, p.categories);
      assert p.Print() == [] + ls == ls;
      assert d.WellFormed() && d.Print() == ls;
    }
    if d: Document :| d.WellFormed() && d.Print() == ls {
      ReadDocument(d);
    }
  }

  // ------------------------------------------------------------------
  // Blank lines and comments anywhere, within bounds.

  function Structure(ls: seq<Line>): seq<Line> {
    if ls == [] then []
    else
      var n := |ls| - 1;
      if Noise(ls[n]) then Structure(ls[..n]) else Structure(ls[..n]) + [ls[n]]
  }

  function Blanks(ls: seq<Line>): nat {
    if ls == [] then 0 else Blanks(ls[..|ls| - 1]) + if ls[|ls| - 1].Blank? then 1 else 0
  }

  function CommentBytes(ls: seq<Line>): nat {
    if ls == [] then 0
    else CommentBytes(ls[..|ls| - 1]) + if ls[|ls| - 1].Comment? then ls[|ls| - 1].length else 0
  }

  predicate NoiseOk(ls: seq<Line>) {
    Blanks(ls) <= MAX_BLANKS && CommentBytes(ls) <= MAX_COMMENT_BYTES
  }

  lemma {:induction false} StructureIs(ls: seq<Line>)
    ensures Structural(Structure(ls))
  {
    if ls != [] {
      StructureIs(ls[..|ls| - 1]);
    }
  }

  /** What a prefix has already spent or lost stays so. */
  lemma {:induction false} PrefixDecides(ls: seq<Line>, n: nat)
    requires n <= |ls|
    ensures Blanks(ls[..n]) <= Blanks(ls) && CommentBytes(ls[..n]) <= CommentBytes(ls)
    ensures Run(Initial(), Structure(ls[..n])).Rejected? ==> Run(Initial(), Structure(ls)).Rejected?
  {
    if n == |ls| {
      assert ls[..n] == ls;
    } else {
      var m := |ls| - 1;
      assert ls[..m][..n] == ls[..n];
      PrefixDecides(ls[..m], n);
      if !Noise(ls[m]) {
        RunNext(Initial(), Structure(ls[..m]), ls[m]);
      }
    }
  }

  /** The tallies and the state after one more line. */
  lemma PrefixNext(ls: seq<Line>, n: nat)
    requires n < |ls|
    ensures Blanks(ls[..n + 1]) == Blanks(ls[..n]) + if ls[n].Blank? then 1 else 0
    ensures CommentBytes(ls[..n + 1]) == CommentBytes(ls[..n]) + if ls[n].Comment? then ls[n].length else 0
    ensures Run(Initial(), Structure(ls[..n + 1])) == Step(Run(Initial(), Structure(ls[..n])), ls[n])
  {
    assert ls[..n + 1][..n] == ls[..n];
    if !Noise(ls[n]) {
      RunNext(Initial(), Structure(ls[..n]), ls[n]);
    }
  }

  /**
   * The validator accepts exactly the prints of well-formed documents, with at most 32 blank lines and 4096 bytes
   * of comments anywhere among them.
   */
  method ValidKeyconfig(lines: seq<Line>) returns (ok: bool)
    ensures ok <==> NoiseOk(lines) && exists d: Document :: d.WellFormed() && d.Print() == Structure(lines)
  {
    StructureIs(lines);
    AcceptsDocuments(Structure(lines));
    ok := Scan(lines);
  }

  method Scan(lines: seq<Line>) returns (ok: bool)
    ensures ok <==> NoiseOk(lines) && Accepting(Run(Initial(), Structure(lines)))
  {
    var root, closed, cat, act, declared := false, false, false, false, false;
    var meta: set<Meta> := {};
    var category: nat, nextAction: nat, totalActions: nat, keyCount: nat := 0, 0, 0, 0;
    var comments: nat, blanks: nat := 0, 0;
    for i := 0 to |lines|
      invariant blanks == Blanks(lines[..i]) <= MAX_BLANKS && comments == CommentBytes(lines[..i]) <= MAX_COMMENT_BYTES
      invariant Run(Initial(), Structure(lines[..i]))
                == State(root, closed, cat, act, declared, meta, category, nextAction, totalActions, keyCount)
    {
      var line := lines[i];
      PrefixNext(lines, i);
      PrefixDecides(lines, i + 1);
      if line.Blank? {
        blanks := blanks + 1;
        if blanks > MAX_BLANKS {
          return false;
        }
        continue;
      }
      if line.Comment? {
        comments := comments + line.length;
        if comments > MAX_COMMENT_BYTES {
          return false;
        }
        continue;
      }
      if line.Declaration? && !root && !declared {
        declared := true;
        continue;
      }
      if line.OpenRoot? {
        if root {
          return false;
        }
        root := true;
        continue;
      }
      if !root || closed {
        return false;
      }
      match line {
        case CloseRoot =>
          if cat || act || category == 0 || totalActions == 0 {
            return false;
          }
          closed := true;
        case CloseCategory =>
          if !cat || act || nextAction == 0 {
            return false;
          }
          cat := false;
        case CloseAction =>
          if !act || keyCount != KEYS {
            return false;
          }
          act := false;
        case Metadata(m) =>
          if m in meta || cat {
            return false;
          }
          meta := meta + {m};
        case OpenCategory(id, _) =>
          if cat || act || category >= MAX_CATEGORIES || meta != {Version, Controller, Keyboard, Mouse} || id != category {
            return false;
          }
          cat := true;
          category := category + 1;
          nextAction := 0;
        case OpenAction(id, _) =>
          if !cat || act || nextAction >= MAX_ACTIONS || totalActions >= MAX_TOTAL || id != nextAction {
            return false;
          }
          act := true;
          nextAction := nextAction + 1;
          totalActions := totalActions + 1;
          keyCount := 0;
        case KeyData(_, _) =>
          if !act || keyCount >= KEYS {
            return false;
          }
          keyCount := keyCount + 1;
        case _ =>
          return false;
      }
    }
    assert lines[..|lines|] == lines;
    ok := closed && !cat && !act;
  }
}
