/** The store's behaviour on the scenarios of the library's Model and
    BlankNode tests, each run on a fresh `Store.Model`. */
module StoreExamples {
  import opened Wrappers
  import opened Terms
  import opened OrderedMaps
  import opened Check
  import opened Statements
  import opened StoreSpec
  import opened Store
  import Resources
  import LiteralNodes

  const Ns := ExampleNs

  /** A model with base prefix "ex" for the example namespace, as every
      Model test starts from. */
  method Fixture() returns (m: Model)
    ensures fresh(m) && m.Valid()
    ensures m.statements == [] && m.namespaces == [Entry("ex", Ns)]
    ensures m.baseNamespace == Some(Ns) && m.basePrefix == Some("ex") && m.bnodeCount == 0
  {
    CheckExamples();
    m := new Model();
    var _ := m.AddBaseNamespace("ex", Ns);
  }

  /** One more namespace gives two; it can be looked up, and an unknown
      prefix is not there. */
  method NamespaceExample() returns (count: nat, got: Result<Option<string>>, hasOther: Result<bool>)
    ensures count == 2 && got == Ok(Some(Ns)) && hasOther == Ok(false)
  {
    var m := TwoNamespaces();
    assert IsPrefix("ns1") by { CheckExamples(); assert IsAlnum("ns1"[2]); }
    count := |m.namespaces|;
    got := m.GetNamespace("ns");
    hasOther := m.HasNamespace("ns1");
  }

  /** The added namespace can be removed again, and is then gone. */
  method RemoveNamespaceExample() returns (removed: Result<bool>, hasAfter: Result<bool>)
    ensures removed == Ok(true) && hasAfter == Ok(false)
  {
    var m := TwoNamespaces();
    removed := m.RemoveNamespace("ns");
    assert m.namespaces == [Entry("ex", Ns)];
    hasAfter := m.HasNamespace("ns");
  }

  /** The fixture with the prefix "ns" added for the same namespace. */
  method TwoNamespaces() returns (m: Model)
    ensures fresh(m) && m.Valid()
    ensures m.namespaces == [Entry("ex", Ns), Entry("ns", Ns)]
  {
    m := Fixture();
    assert IsPrefix("ns") by { CheckExamples(); }
    var _ := m.AddNamespace("ns", Ns);
  }

  /** The statement of the duplicate tests: test -pred-> "literal". */
  function SampleStatement(): Statement {
    Statement(Resource(Ns + "test"), Resource(Ns + "pred"), LiteralNodes.NewLiteralNode("literal"))
  }

  /** Once a statement is stored, adding it again with duplicates forbidden
      fails and keeps one copy; with duplicates allowed it succeeds and
      keeps two. */
  method DuplicateExample() returns (present: Result<bool>, refused: Result<bool>, sizeRefused: nat,
                                     accepted: Result<bool>, sizeAccepted: nat)
    ensures present == Ok(true) && refused == Ok(false) && sizeRefused == 1
    ensures accepted == Ok(true) && sizeAccepted == 2
  {
    var st := SampleStatement();
    EqualsIff(st, st);
    var m := Fixture();
    var _ := m.Add(Stmt(st));
    assert m.statements == [st];
    assert StoreSpec.Contains(m.statements, st) by { assert Equals(st, Stmt(m.statements[0])); }
    present := m.Contains(Stmt(st));
    refused := m.Add(Stmt(st), false);
    sizeRefused := m.Size();
    accepted := m.Add(Stmt(st), true);
    sizeAccepted := m.Size();
  }

  /** A string or a literal cannot be added; a resource or a blank node
      without properties adds nothing and gives false. */
  method AddErrorsExample() returns (str: Result<bool>, res: Result<bool>, blank: Result<bool>,
                                     lit: Result<bool>, size: nat)
    ensures str.Err? && lit.Err? && res == Ok(false) && blank == Ok(false) && size == 0
  {
    var m := Fixture();
    str := m.Add(Str("bla"));
    res := m.Add(Obj(Plain(Resource(Ns + "test"))));
    var b := m.NewBlankNode();
    blank := m.Add(Obj(b));
    lit := m.Add(Obj(Plain(LiteralNodes.NewLiteralNode("test"))));
    size := m.Size();
  }

  /** The two-level resource of the removal test: three properties, the
      last holding a resource with two properties of its own. */
  function TwoLevel(): Term {
    var lit := (s: string) => Plain(LiteralNodes.NewLiteralNode(s));
    Term(Resource(Ns + "test"),
         [Entry(Ns + "pred1", lit("literal1")),
          Entry(Ns + "pred2", lit("literal2")),
          Entry(Ns + "pred3", Term(Resource(Ns + "test2"),
                                   [Entry(Ns + "pred", lit("litera3")),
                                    Entry(Ns + "pred2", lit("litera4"))]))])
  }

  lemma TwoLevelShape()
    ensures WellFormed(TwoLevel()) && |Flatten(TwoLevel())| == 5
  {
    var t := TwoLevel();
    var inner := t.props[2].value;
    assert (Ns + "pred1")[23] == '1' && (Ns + "pred2")[23] == '2' && (Ns + "pred3")[23] == '3';
    assert |Ns + "pred"| != |Ns + "pred2"|;
    assert |FlattenFrom(inner, 2)| == 0;
    assert |FlattenFrom(inner, 1)| == 1;
    assert |FlattenFrom(inner, 0)| == 2;
    assert |FlattenFrom(t, 3)| == 0;
    assert |FlattenFrom(t, 2)| == 3;
    assert |FlattenFrom(t, 1)| == 4;
  }

  /** Adding the two-level resource stores five statements; removing it
      leaves the store empty. */
  method AddRemoveExample() returns (added: Result<bool>, sizeAdded: nat, removed: Result<bool>, sizeRemoved: nat)
    ensures added == Ok(true) && sizeAdded == 5 && removed == Ok(true) && sizeRemoved == 0
  {
    var m;
    m, added := AddTwoLevel();
    sizeAdded := m.Size();
    removed := m.Remove(Obj(TwoLevel()));
    AddThenRemoveEmpty(TwoLevel(), true);
    sizeRemoved := m.Size();
  }

  /** The fixture after adding the two-level resource. */
  method AddTwoLevel() returns (m: Model, added: Result<bool>)
    ensures fresh(m) && m.Valid() && added == Ok(true)
    ensures m.statements == AddAll([], Flatten(TwoLevel()), true) && |m.statements| == 5
  {
    var t := TwoLevel();
    TwoLevelShape();
    m := Fixture();
    added := m.Add(Obj(t));
    AddAllExtends([], Flatten(t), true);
  }

  /** The blank node with id BNODE + "1" equals the first blank node a fresh
      model mints. */
  method FirstMintedExample() returns (first: bool)
    ensures first
  {
    var m := new Model();
    var b := m.NewBlankNode();
    FirstIds();
    first := Resources.Equals(Plain(BlankNode(Bnode + "1")), Obj(b));
  }

  /** After `newResource("test")`, `newResource()` twice and
      `newBlankNode()` once, the next minted id ends in "4". */
  method FourthMintedExample() returns (fourth: string)
    ensures fourth == "bNode4"
  {
    var m := ThreeResources();
    var _ := m.NewBlankNode();
    var b4 := m.NewBlankNode();
    FirstIds();
    fourth := b4.node.id;
  }

  /** The fixture after `newResource("test")` and `newResource()` twice:
      the named resource mints no id, the two unnamed ones mint one each. */
  method ThreeResources() returns (m: Model)
    ensures fresh(m) && m.Valid() && m.bnodeCount == 2
  {
    m := Fixture();
    assert !Empty(Str("test"));
    var _ := m.NewResource(Some("test"));
    assert m.bnodeCount == 0;
    var _ := m.NewResource();
    var _ := m.NewResource();
  }
}
