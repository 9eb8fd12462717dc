/** Two configurations in which an inherited lookup changes what later lookups see. */
module SharedExamples {
  import opened Wrappers
  import opened Stores
  import opened Valuers
  import opened SharedLookup
  import opened SharedOverlay
  import opened SharedEffects

  // ---------- A plain field sees what a nested field has inherited ----------

  /** `{"Server": {"Port": 80}, "Mid": {"Server": {"Host": "a"}, "Child": {"Server": {}}}}`, the root at 0. */
  const SIBLINGS: Store :=
    [map["Server" := MapAt(1), "Mid" := MapAt(2)], map["Port" := Number("80")],
     map["Server" := MapAt(3), "Child" := MapAt(4)], map["Host" := Text("a")],
     map["Server" := MapAt(5)], map[]]

  const SIBLING_LEVELS: seq<Loc> := [4, 2, 0]

  /** The valuer of the struct at `Mid`, and that of the struct at `Child` inside it. */
  const MID: Valuer<Loc> := Reached(0, [Nested(false, 2)])
  const CHILD: Valuer<Loc> := Reached(0, [Nested(false, 2), Nested(false, 4)])

  lemma SiblingsSeparate()
    ensures Separate(SIBLINGS, SIBLING_LEVELS, {"Server"})
  {
    var h, levels := SIBLINGS, SIBLING_LEVELS;
    assert Get(h, 4) == map["Server" := MapAt(5)] && Get(h, 2)["Server"] == MapAt(3) && Get(h, 0)["Server"] == MapAt(1);
    forall p: Place, l | p.1 in {"Server"} && At(h, levels, p, l) ensures l == [5, 3, 1][p.0] {
    }
  }

  lemma SiblingChains()
    ensures !Deep(MID) && Nearest(MID) == 2
    ensures AsksFor(Ask(CreateValuer(CHILD, true), "Server"), SIBLING_LEVELS, {"Server"})
    ensures Chain(CreateValuer(CHILD, true)) == SIBLING_LEVELS
  {
    var steps := [Nested(false, 2), Nested(false, 4)];
    assert steps[..1] == [Nested(false, 2)] && steps[..1][..0] == [];
    ReachedChain(0, steps);
    ReachedChain(0, [Nested(false, 2)]);
    CreateValuerChain(CHILD, true);
    assert Passed(0, steps) == [4] + Passed(0, [Nested(false, 2)]) == [4] + ([2] + [0]) by {
      assert [Nested(false, 2)][..0] == [];
    }
    assert SIBLING_LEVELS[0..] == SIBLING_LEVELS;
    assert MID == Enter(CreateValuer(SimpleValuer(MapValuer(0), None), false), 2) by {
      assert [Nested(false, 2)][..0] == [];
    }
  }

  /**
   The inherited lookup of `Server` in the struct at `Child` makes its ancestor at `Mid` extend its own
   `Server`: a plain lookup there finds the host alone before, and host and port after.
   */
  lemma SiblingSeesMerge()
    ensures Find(SIBLINGS, MID, "Server") == Sought(Some(MapAt(3)), SIBLINGS)
    ensures Get(SIBLINGS, 3) == map["Host" := Text("a")]
    ensures var r := Find(SIBLINGS, CreateValuer(CHILD, true), "Server");
            r.value == Some(MapAt(5)) && Get(r.store, 5) == map["Host" := Text("a"), "Port" := Number("80")] &&
            Find(r.store, MID, "Server") == Sought(Some(MapAt(3)), r.store) &&
            Get(r.store, 3) == map["Host" := Text("a"), "Port" := Number("80")]
  {
    var a := Ask(CreateValuer(CHILD, true), "Server");
    SiblingChains();
    SiblingsSeparate();
    FindPlain(SIBLINGS, MID, "Server");
    FindNearest(SIBLINGS, a.v, "Server");
    assert [a][..0] == [] && After(SIBLINGS, [a]) == Find(SIBLINGS, a.v, "Server").store;
    assert a in [a] && ComesBy(SIBLINGS, SIBLING_LEVELS, a, 1, "Server") &&
           ComesBy(SIBLINGS, SIBLING_LEVELS, a, 0, "Server");
    PlainAfter(SIBLINGS, SIBLING_LEVELS, {"Server"}, [a], MID, 1, "Server");
    PlainAfter(SIBLINGS, SIBLING_LEVELS, {"Server"}, [a], MapValuer(4), 0, "Server");
    SiblingContents();
  }

  lemma SiblingContents()
    ensures Content(SIBLINGS, SIBLING_LEVELS, (1, "Server")) == map["Host" := Text("a"), "Port" := Number("80")]
    ensures Content(SIBLINGS, SIBLING_LEVELS, (0, "Server")) == map["Host" := Text("a"), "Port" := Number("80")]
  {
    var h, levels := SIBLINGS, SIBLING_LEVELS;
    OverlayStep(h, levels, 0, "Server");
    OverlayStep(h, levels, 1, "Server");
    OverlayStep(h, levels, 2, "Server");
    assert levels[3..] == [] && Get(h, 0)["Server"] == MapAt(1) && Get(h, 2)["Server"] == MapAt(3) &&
           Get(h, 4)["Server"] == MapAt(5);
    SameEntries(map["Port" := Number("80")] + map["Host" := Text("a")],
                map["Host" := Text("a"), "Port" := Number("80")]);
  }

  // ---------- A level that is itself inherited into ----------

  /** `{"svc": {"port": 80}, "l": {"svc": {"in": {}}}}`, the root at 0. */
  const ADOPTED: Store :=
    [map["svc" := MapAt(1), "l" := MapAt(2)], map["port" := Number("80")], map["svc" := MapAt(3)],
     map["in" := MapAt(4)], map[]]

  /** The way to the struct at `in`, through a field `svc` that inherits. */
  const WAY: seq<Step<Loc>> := [Nested(false, 2), Nested(true, 3), Nested(false, 4)]

  const ADOPTED_LEVELS: seq<Loc> := [4, 3, 2, 0]

  const SVC: Ask := Ask(CreateValuer(Reached(0, WAY[..1]), true), "svc")
  const PORT: Ask := Ask(CreateValuer(Reached(0, WAY), true), "port")

  lemma AdoptedChains()
    ensures Chain(SVC.v) == [2, 0] && AsksFor(SVC, [2, 0], {"svc"})
    ensures Chain(PORT.v) == ADOPTED_LEVELS
    ensures AsksFor(SVC, ADOPTED_LEVELS, {"svc", "port"}) && AsksFor(PORT, ADOPTED_LEVELS, {"svc", "port"})
  {
    ReachedChain(0, WAY);
    ReachedChain(0, WAY[..1]);
    CreateValuerChain(Reached(0, WAY), true);
    CreateValuerChain(Reached(0, WAY[..1]), true);
    assert WAY[..2][..1] == WAY[..1] && WAY[..1][..0] == [];
    assert Passed(0, WAY[..1]) == [2] + Passed(0, []) == [2, 0];
    assert Passed(0, WAY[..2]) == [3] + Passed(0, WAY[..1]);
    assert Passed(0, WAY) == [4] + Passed(0, WAY[..2]) == ADOPTED_LEVELS;
    assert [2, 0][0..] == [2, 0] == ADOPTED_LEVELS[2..] && ADOPTED_LEVELS[0..] == ADOPTED_LEVELS;
  }

  lemma AdoptedSeparate()
    ensures Separate(ADOPTED, [2, 0], {"svc"})
    ensures forall p: Place, l :: p.1 == "svc" && At(ADOPTED, [2, 0], p, l) ==> l == [3, 1][p.0]
  {
    assert Get(ADOPTED, 2)["svc"] == MapAt(3) && Get(ADOPTED, 0)["svc"] == MapAt(1);
    forall p: Place, l | p.1 == "svc" && At(ADOPTED, [2, 0], p, l) ensures l == [3, 1][p.0] {
    }
  }

  lemma AdoptedContents()
    ensures Content(ADOPTED, [2, 0], (0, "svc")) == map["in" := MapAt(4), "port" := Number("80")]
    ensures Content(ADOPTED, [2, 0], (1, "svc")) == map["port" := Number("80")]
  {
    OverlayStep(ADOPTED, [2, 0], 0, "svc");
    OverlayStep(ADOPTED, [2, 0], 1, "svc");
    assert [2, 0][2..] == [] && Get(ADOPTED, 2)["svc"] == MapAt(3) && Get(ADOPTED, 0)["svc"] == MapAt(1);
    SameEntries(map["port" := Number("80")] + map["in" := MapAt(4)], map["in" := MapAt(4), "port" := Number("80")]);
  }

  lemma AdoptedAt(n: nat)
    requires n < 2
    ensures Get(After(ADOPTED, [SVC]), [3, 1][n]) == Content(ADOPTED, [2, 0], (n, "svc"))
  {
    AdoptedChains();
    AdoptedSeparate();
    assert SVC in [SVC] && ComesBy(ADOPTED, [2, 0], SVC, n, "svc");
    PlainAfter(ADOPTED, [2, 0], {"svc"}, [SVC], MapValuer([2, 0][n]), n, "svc");
  }

  lemma AdoptedElsewhere(l: Loc)
    requires l != 1 && l != 3
    ensures Get(After(ADOPTED, [SVC]), l) == Get(ADOPTED, l)
  {
    AdoptedChains();
    AdoptedSeparate();
    AfterIsFilled(ADOPTED, [2, 0], {"svc"}, [SVC]);
    var touched := Touched(ADOPTED, [2, 0], [SVC]);
    forall p | p in touched ensures !At(ADOPTED, [2, 0], p, l) {
      assert p == (p.0, p.1);
    }
    FilledElsewhere(ADOPTED, [2, 0], touched, l);
  }

  /** The store that the lookup of `svc` at `l` leaves. */
  lemma AdoptedAfter()
    ensures After(ADOPTED, [SVC]) == ADOPTED[3 := map["in" := MapAt(4), "port" := Number("80")]]
  {
    AdoptedAt(0);
    AdoptedAt(1);
    AdoptedContents();
    AfterExtends(ADOPTED, [SVC]);
    forall l: Loc | l != 1 && l != 3 ensures Get(After(ADOPTED, [SVC]), l) == Get(ADOPTED, l) {
      AdoptedElsewhere(l);
    }
    SameStores(After(ADOPTED, [SVC]), ADOPTED[3 := map["in" := MapAt(4), "port" := Number("80")]]);
  }

  /**
   The lookup of `svc` at `l` extends a map that is then a level itself, the struct entered through `svc`: a
   lookup of `port` further in finds a port, which none of the levels had. The maps have no completion.
   */
  lemma LevelsMustNotBeValues()
    ensures Overlay(ADOPTED, ADOPTED_LEVELS, "port") == None
    ensures Find(After(ADOPTED, [SVC]), PORT.v, PORT.key).value == Some(Number("80"))
    ensures !KeepsOverlay(ADOPTED, ADOPTED_LEVELS, {"svc", "port"})
    ensures !exists full :: Completes(ADOPTED, full, ADOPTED_LEVELS, {"svc", "port"})
  {
    var was, levels := ADOPTED, ADOPTED_LEVELS;
    var h := After(was, [SVC]);
    AdoptedChains();
    AdoptedAfter();
    PortOverlay(was);
    PortOverlay(h);
    forall i, key | 0 <= i < |levels| && key in {"port"} ensures CompleteAt(h, h, levels, i, key) {
      OverlayStep(h, levels, i, key);
    }
    FindShows(h, h, levels, {"port"}, h, PORT.v, 0, "port");
    assert levels[0..] == levels;
    assert AllAskFor([SVC], levels, {"svc", "port"}) && !ShowsOriginal(was, [SVC], PORT);
    KeepsExactly(was, levels, {"svc", "port"});
  }

  lemma PortOverlay(h: Store)
    requires h == ADOPTED || h == ADOPTED[3 := map["in" := MapAt(4), "port" := Number("80")]]
    ensures Overlay(h, ADOPTED_LEVELS, "port") == if "port" in Get(h, 3) then Some(Leaf(Number("80"))) else None
  {
    var levels := ADOPTED_LEVELS;
    OverlayStep(h, levels, 0, "port");
    OverlayStep(h, levels, 1, "port");
    OverlayStep(h, levels, 2, "port");
    OverlayStep(h, levels, 3, "port");
    assert levels[0..] == levels && levels[4..] == [];
  }
}
