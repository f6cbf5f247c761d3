/** Update documents (`huus::updates`). An `Update` collects plain field values
    in a document and, per update operator, a list of instructions; `into_doc`
    turns them into one MongoDB update document. */
module Updates {
  import opened Wrappers
  import opened Seqs
  import opened Bson
  import Text
  import Values

  // ---------------------------------------------------------------------------
  // Operators

  datatype UpdateOperator =
    | Inc | Min | Max | Mul | Rename | Set | SetOnInsert | Unset
    | AddToSet | Pop | Pull | Push | PullAll | CurrentDate

  function OperatorName(op: UpdateOperator): (name: string)
    ensures |name| > 1 && name[0] == '$'
  {
    match op
    case Inc => "$inc"
    case Min => "$min"
    case Max => "$max"
    case Mul => "$mul"
    case Rename => "$rename"
    case Set => "$set"
    case SetOnInsert => "$setOnInsert"
    case Unset => "$unset"
    case AddToSet => "$addToSet"
    case Pop => "$pop"
    case Pull => "$pull"
    case Push => "$push"
    case PullAll => "$pullAll"
    case CurrentDate => "$currentDate"
  }

  /** Distinct operators have distinct names. */
  lemma OperatorNameInjective(op1: UpdateOperator, op2: UpdateOperator)
    ensures OperatorName(op1) == OperatorName(op2) ==> op1 == op2
  {
    if op1 != op2 {
      assert OperatorName(op1) != OperatorName(op2) by {
        match op1
        case Set => assert OperatorName(op2)[1..] != "set" || |OperatorName(op2)| != 4;
        case _ =>
      }
    }
  }

  /** The order in which `into_doc` emits the operator sub-documents. */
  const OperatorOrder: seq<UpdateOperator> :=
    [Inc, Min, Max, Mul, Rename, Set, SetOnInsert, Unset, AddToSet, Pop, Pull, Push, PullAll, CurrentDate]

  /** Position of an operator in the emission order. */
  function Rank(op: UpdateOperator): (i: nat)
    ensures i < |OperatorOrder| && OperatorOrder[i] == op
  {
    match op
    case Inc => 0
    case Min => 1
    case Max => 2
    case Mul => 3
    case Rename => 4
    case Set => 5
    case SetOnInsert => 6
    case Unset => 7
    case AddToSet => 8
    case Pop => 9
    case Pull => 10
    case Push => 11
    case PullAll => 12
    case CurrentDate => 13
  }

  lemma {:induction false} RankedDistinct(ops: seq<UpdateOperator>, base: nat)
    requires forall i :: 0 <= i < |ops| ==> Rank(ops[i]) == base + i
    ensures Distinct(ops)
    decreases |ops|
  {
    if |ops| > 0 {
      RankedDistinct(ops[1..], base + 1);
      assert forall i :: 1 <= i < |ops| ==> Rank(ops[i]) != Rank(ops[0]);
      assert ops[0] !in ops[1..];
    }
  }

  /** Each position of the emission order holds the operator of that rank. */
  lemma OrderRanks()
    ensures forall i :: 0 <= i < |OperatorOrder| ==> Rank(OperatorOrder[i]) == i
  {
    // Halving the range keeps each case to a few positions.
    forall i | 0 <= i < |OperatorOrder| ensures Rank(OperatorOrder[i]) == i {
      if i < 7 {
        if i < 4 { if i < 2 { } else { } } else { }
      } else {
        if i < 11 { if i < 9 { } else { } } else { }
      }
    }
  }

  /** The emission order lists every operator exactly once. */
  lemma OperatorOrderComplete()
    ensures |OperatorOrder| == 14 && Distinct(OperatorOrder)
    ensures forall op: UpdateOperator :: op in OperatorOrder
  {
    OrderRanks();
    RankedDistinct(OperatorOrder, 0);
    forall op: UpdateOperator ensures op in OperatorOrder {
      assert OperatorOrder[Rank(op)] == op;
    }
  }

  // ---------------------------------------------------------------------------
  // Update

  /** `UpdateInstruction { path, value }` */
  datatype Instruction = Instruction(path: seq<string>, value: Values.Value)

  /** The plain document and the instruction list of each operator; an operator
      missing from the map has an empty list. */
  datatype Update = Update(doc: Doc, instructions: map<UpdateOperator, seq<Instruction>>)

  function Instructions(u: Update, op: UpdateOperator): seq<Instruction> {
    if op in u.instructions then u.instructions[op] else []
  }

  /** `Update::empty` */
  function EmptyUpdate(): (u: Update)
    ensures Keys(u.doc) == []
    ensures forall op :: Instructions(u, op) == []
  {
    Update(EmptyDoc, map[])
  }

  /** `Update::with_field`: the plain value `{field: value}` and no instruction. */
  function WithField(field: string, value: Bson): (u: Update)
    ensures IsSingleton(u.doc, field, value)
    ensures forall op :: Instructions(u, op) == []
  {
    Update(SingletonDoc(field, value), map[])
  }

  /** `Update::with_operator`: one instruction, of path `[field]`, in the list of
      `op`; no plain value. */
  function WithOperator(op: UpdateOperator, field: string, value: Values.Value): (u: Update)
    ensures Keys(u.doc) == []
    ensures Instructions(u, op) == [Instruction([field], value)]
    ensures forall op' :: op' != op ==> Instructions(u, op') == []
  {
    Update(EmptyDoc, map[op := [Instruction([field], value)]])
  }

  /** `Update::incorporate`: the other update's plain entries are inserted in order
      and its instructions are appended to the matching lists. */
  function Incorporate(u: Update, other: Update): (r: Update)
    ensures forall op :: Instructions(r, op) == Instructions(u, op) + Instructions(other, op)
    ensures forall k :: HasKey(r.doc, k) <==> HasKey(u.doc, k) || HasKey(other.doc, k)
  {
    var r := Update(InsertAll(u.doc, other.doc.entries),
                    map op | op in u.instructions.Keys + other.instructions.Keys ::
                      Instructions(u, op) + Instructions(other, op));
    assert forall k :: HasKey(r.doc, k) <==> HasKey(u.doc, k) || HasKey(other.doc, k) by {
      forall k ensures HasKey(r.doc, k) <==> HasKey(u.doc, k) || HasKey(other.doc, k) {
        InsertAllHasKey(u.doc, other.doc.entries, k);
      }
    }
    r
  }

  /** Incorporating the empty update changes nothing. */
  lemma IncorporateEmpty(u: Update)
    ensures Incorporate(u, EmptyUpdate()).doc == u.doc
    ensures forall op :: Instructions(Incorporate(u, EmptyUpdate()), op) == Instructions(u, op)
  {
    forall op ensures Instructions(u, op) + [] == Instructions(u, op) {
    }
  }

  // ---------------------------------------------------------------------------
  // into_doc

  /** Every field followed by '.', the loop of `into_doc`'s `build`. */
  function PathWithDots(path: seq<string>): string
    decreases |path|
  {
    if |path| == 0 then "" else path[0] + "." + PathWithDots(path[1..])
  }

  /** The key of an instruction: its fields each followed by '.', and then the last
      character dropped (`String::pop`, which does nothing on an empty string). */
  function PathString(path: seq<string>): string {
    var p := PathWithDots(path);
    if |p| == 0 then p else p[..|p| - 1]
  }

  lemma {:induction false} PathWithDotsJoin(path: seq<string>)
    requires |path| >= 1
    ensures PathWithDots(path) == Text.Join(path, ".") + "."
    decreases |path|
  {
    if |path| > 1 {
      PathWithDotsJoin(path[1..]);
    } else {
      assert PathWithDots(path[1..]) == "";
    }
  }

  /** An instruction's key is its path joined with '.'. */
  lemma PathStringJoin(path: seq<string>)
    requires |path| >= 1
    ensures PathString(path) == Text.Join(path, ".")
  {
    PathWithDotsJoin(path);
    var j := Text.Join(path, ".");
    assert (j + ".")[..|j + "."| - 1] == j;
  }

  /** The entries of an operator sub-document, in instruction order. */
  function InstructionEntries(instrs: seq<Instruction>): (es: seq<Entry>)
    ensures |es| == |instrs|
    ensures forall i :: 0 <= i < |instrs| ==>
      es[i] == Entry(PathString(instrs[i].path), Values.IntoBson(instrs[i].value))
    decreases |instrs|
  {
    if |instrs| == 0 then []
    else [Entry(PathString(instrs[0].path), Values.IntoBson(instrs[0].value))] + InstructionEntries(instrs[1..])
  }

  /** The sub-document of one operator: the instructions inserted from the last to
      the first. */
  function OperatorDoc(instrs: seq<Instruction>): (d: Doc)
    ensures UniqueKeys(d)
  {
    FromEntriesUnique(Reverse(InstructionEntries(instrs)));
    FromEntries(Reverse(InstructionEntries(instrs)))
  }

  /** Because of the reverse insertion, a path given by several instructions keeps
      the value of the first of them. */
  lemma OperatorDocGet(instrs: seq<Instruction>, k: string)
    ensures Get(OperatorDoc(instrs), k) == Lookup(InstructionEntries(instrs), k)
  {
    InsertAllGet(EmptyDoc, Reverse(InstructionEntries(instrs)), k);
    LastLookupReverse(InstructionEntries(instrs), k);
  }

  /** One step of `into_doc`: a non-empty list adds its operator's sub-document. */
  function AddOperator(res: Doc, op: UpdateOperator, instrs: seq<Instruction>): (r: Doc)
    ensures instrs == [] ==> r == res
    ensures instrs != [] ==> Get(r, OperatorName(op)) == Some(Document(OperatorDoc(instrs)))
    ensures instrs != [] ==> forall k :: k != OperatorName(op) ==> Get(r, k) == Get(res, k)
  {
    if instrs == [] then res else Insert(res, OperatorName(op), Document(OperatorDoc(instrs)))
  }

  function AddOperators(res: Doc, u: Update, ops: seq<UpdateOperator>): Doc
    decreases |ops|
  {
    if |ops| == 0 then res
    else AddOperators(AddOperator(res, ops[0], Instructions(u, ops[0])), u, ops[1..])
  }

  /** `Update::into_doc` */
  function UpdateIntoDoc(u: Update): Doc {
    AddOperators(u.doc, u, OperatorOrder)
  }

  /** The names of the operators of `ops` whose lists are not empty, in order. */
  function ActiveOperators(u: Update, ops: seq<UpdateOperator>): seq<string>
    decreases |ops|
  {
    if |ops| == 0 then []
    else (if Instructions(u, ops[0]) != [] then [OperatorName(ops[0])] else []) + ActiveOperators(u, ops[1..])
  }

  /** No plain key is spelled like an operator. */
  predicate NoOperatorKeys(d: Doc) {
    forall op: UpdateOperator :: !HasKey(d, OperatorName(op))
  }

  lemma {:induction false} AddOperatorsKeys(res: Doc, u: Update, ops: seq<UpdateOperator>)
    requires Distinct(ops)
    requires forall i :: 0 <= i < |ops| ==> !HasKey(res, OperatorName(ops[i]))
    ensures Keys(AddOperators(res, u, ops)) == Keys(res) + ActiveOperators(u, ops)
    decreases |ops|
  {
    if |ops| == 0 {
      assert Keys(res) + [] == Keys(res);
    } else {
      var op := ops[0];
      var res' := AddOperator(res, op, Instructions(u, op));
      var head: seq<string> := if Instructions(u, op) != [] then [OperatorName(op)] else [];
      var tail := ActiveOperators(u, ops[1..]);
      AddOperatorStep(res, u, op);
      assert Keys(res') == Keys(res) + head;
      RestStaysFresh(res, u, ops);
      assert Distinct(ops[1..]);
      AddOperatorsKeys(res', u, ops[1..]);
      assert AddOperators(res, u, ops) == AddOperators(res', u, ops[1..]);
      assert ActiveOperators(u, ops) == head + tail;
      Assoc(Keys(res), head, tail);
    }
  }

  /** After the first operator is added, the remaining ones are still absent. */
  lemma RestStaysFresh(res: Doc, u: Update, ops: seq<UpdateOperator>)
    requires |ops| > 0 && Distinct(ops)
    requires forall i :: 0 <= i < |ops| ==> !HasKey(res, OperatorName(ops[i]))
    ensures forall i :: 0 <= i < |ops[1..]| ==>
              !HasKey(AddOperator(res, ops[0], Instructions(u, ops[0])), OperatorName(ops[1..][i]))
  {
    forall i | 0 <= i < |ops[1..]|
      ensures !HasKey(AddOperator(res, ops[0], Instructions(u, ops[0])), OperatorName(ops[1..][i]))
    {
      assert ops[1..][i] == ops[i + 1];
      DistinctAt(ops, 0, i + 1);
      OperatorNameInjective(ops[0], ops[i + 1]);
      AddOperatorFresh(res, ops[0], Instructions(u, ops[0]), OperatorName(ops[i + 1]));
    }
  }

  /** Adding one operator not yet present appends its name when it has
      instructions. */
  lemma AddOperatorStep(res: Doc, u: Update, op: UpdateOperator)
    requires !HasKey(res, OperatorName(op))
    ensures Keys(AddOperator(res, op, Instructions(u, op))) ==
              Keys(res) + (if Instructions(u, op) != [] then [OperatorName(op)] else [])
  {
    var instrs := Instructions(u, op);
    if instrs != [] {
      InsertKeys(res, OperatorName(op), Document(OperatorDoc(instrs)));
    } else {
      assert Keys(res) + [] == Keys(res);
    }
  }

  /** Adding an operator brings in no key other than its name. */
  lemma AddOperatorFresh(res: Doc, op: UpdateOperator, instrs: seq<Instruction>, k: string)
    requires k != OperatorName(op) && !HasKey(res, k)
    ensures !HasKey(AddOperator(res, op, instrs), k)
  {
    if instrs != [] {
      assert Get(AddOperator(res, op, instrs), k) == Get(res, k);
    }
  }

  /** `into_doc` emits the plain keys first, then one key per non-empty
      instruction list in the fixed operator order, and nothing for empty lists. */
  lemma UpdateIntoDocKeys(u: Update)
    requires NoOperatorKeys(u.doc)
    ensures Keys(UpdateIntoDoc(u)) == Keys(u.doc) + ActiveOperators(u, OperatorOrder)
  {
    OperatorOrderComplete();
    AddOperatorsKeys(u.doc, u, OperatorOrder);
  }

  lemma {:induction false} AddOperatorsGet(res: Doc, u: Update, ops: seq<UpdateOperator>, op: UpdateOperator)
    requires Distinct(ops)
    ensures Get(AddOperators(res, u, ops), OperatorName(op)) ==
      if op in ops && Instructions(u, op) != [] then Some(Document(OperatorDoc(Instructions(u, op))))
      else Get(res, OperatorName(op))
    decreases |ops|
  {
    if |ops| > 0 {
      var res' := AddOperator(res, ops[0], Instructions(u, ops[0]));
      AddOperatorsGet(res', u, ops[1..], op);
      OperatorNameInjective(ops[0], op);
    }
  }

  lemma {:induction false} AddOperatorsPlain(res: Doc, u: Update, ops: seq<UpdateOperator>, k: string)
    requires forall op: UpdateOperator :: k != OperatorName(op)
    ensures Get(AddOperators(res, u, ops), k) == Get(res, k)
    decreases |ops|
  {
    if |ops| > 0 {
      AddOperatorsPlain(AddOperator(res, ops[0], Instructions(u, ops[0])), u, ops[1..], k);
    }
  }

  /** Under an operator's name `into_doc` holds that operator's sub-document when
      its list is non-empty; every other key keeps its plain value. */
  lemma UpdateIntoDocGet(u: Update, op: UpdateOperator, k: string)
    ensures Instructions(u, op) != [] ==>
      Get(UpdateIntoDoc(u), OperatorName(op)) == Some(Document(OperatorDoc(Instructions(u, op))))
    ensures Instructions(u, op) == [] ==> Get(UpdateIntoDoc(u), OperatorName(op)) == Get(u.doc, OperatorName(op))
    ensures (forall op': UpdateOperator :: k != OperatorName(op')) ==> Get(UpdateIntoDoc(u), k) == Get(u.doc, k)
  {
    var ops := OperatorOrder;
    OperatorOrderComplete();
    assert Distinct(ops) && op in ops;
    AddOperatorsGet(u.doc, u, ops, op);
    if forall op': UpdateOperator :: k != OperatorName(op') {
      AddOperatorsPlain(u.doc, u, ops, k);
    }
  }

  /** The empty update gives the empty document. */
  lemma EmptyUpdateIntoDoc()
    ensures Keys(UpdateIntoDoc(EmptyUpdate())) == []
  {
    UpdateIntoDocKeys(EmptyUpdate());
    assert forall ops: seq<UpdateOperator> :: ActiveOperators(EmptyUpdate(), ops) == [] by {
      forall ops: seq<UpdateOperator> ensures ActiveOperators(EmptyUpdate(), ops) == [] {
        NoActiveOperators(ops);
      }
    }
  }

  lemma {:induction false} NoActiveOperators(ops: seq<UpdateOperator>)
    ensures ActiveOperators(EmptyUpdate(), ops) == []
    decreases |ops|
  {
    if |ops| > 0 {
      NoActiveOperators(ops[1..]);
    }
  }

  /** `From<Update> for Bson`: the update document as a BSON value. */
  function UpdateIntoBson(u: Update): (b: Bson)
    ensures b.Document? && b.doc == UpdateIntoDoc(u)
  {
    Document(UpdateIntoDoc(u))
  }

  // ---------------------------------------------------------------------------
  // Shapes of built updates

  /** An update with neither plain values nor instructions. */
  predicate IsEmptyUpdate(u: Update) {
    Keys(u.doc) == [] && forall op :: Instructions(u, op) == []
  }

  /** The update that sets the plain value `{field: b}` and nothing else. */
  predicate IsPlainValue(u: Update, field: string, b: Bson) {
    IsSingleton(u.doc, field, b) && forall op :: Instructions(u, op) == []
  }

  /** The update holding the single instruction `op {field: v}` and nothing else. */
  predicate IsSingleInstruction(u: Update, op: UpdateOperator, field: string, v: Values.Value) {
    Keys(u.doc) == [] && Instructions(u, op) == [Instruction([field], v)] &&
    forall op' :: op' != op ==> Instructions(u, op') == []
  }

  lemma {:induction false} NoInstructionsAddNothing(res: Doc, u: Update, ops: seq<UpdateOperator>)
    requires forall op :: Instructions(u, op) == []
    ensures AddOperators(res, u, ops) == res
    decreases |ops|
  {
    if |ops| > 0 {
      NoInstructionsAddNothing(res, u, ops[1..]);
    }
  }

  /** An update without instructions renders as its plain document. */
  lemma NoInstructionsIntoDoc(u: Update)
    requires forall op :: Instructions(u, op) == []
    ensures UpdateIntoDoc(u) == u.doc
  {
    NoInstructionsAddNothing(u.doc, u, OperatorOrder);
  }

  /** A one-field path is rendered as the field itself. */
  lemma SingleFieldPath(field: string)
    ensures PathString([field]) == field
  {
    assert PathWithDots([field]) == field + "." + PathWithDots([]);
    assert (field + ".")[..|field + "."| - 1] == field;
  }

  /** The sub-document of one instruction of a one-field path is `{field: value}`. */
  lemma SingleOperatorDoc(field: string, v: Values.Value)
    ensures IsSingleton(OperatorDoc([Instruction([field], v)]), field, Values.IntoBson(v))
  {
    var instrs := [Instruction([field], v)];
    var e := Entry(field, Values.IntoBson(v));
    SingleFieldPath(field);
    assert InstructionEntries(instrs) == [e];
    assert Reverse([e]) == [e];
    assert InsertAll(EmptyDoc, [e]) == SingletonDoc(field, Values.IntoBson(v));
  }

  /** A single instruction renders as `{op: {field: value}}`. */
  lemma SingleInstructionIntoDoc(u: Update, op: UpdateOperator, field: string, v: Values.Value)
    requires IsSingleInstruction(u, op, field, v)
    ensures Keys(UpdateIntoDoc(u)) == [OperatorName(op)]
    ensures Get(UpdateIntoDoc(u), OperatorName(op)) == Some(Document(OperatorDoc([Instruction([field], v)])))
    ensures IsSingleton(OperatorDoc([Instruction([field], v)]), field, Values.IntoBson(v))
  {
    SingleOperatorDoc(field, v);
    SingleInstructionKeys(u, op, field, v);
    UpdateIntoDocGet(u, op, field);
  }

  lemma SingleInstructionKeys(u: Update, op: UpdateOperator, field: string, v: Values.Value)
    requires IsSingleInstruction(u, op, field, v)
    ensures Keys(UpdateIntoDoc(u)) == [OperatorName(op)]
  {
    OperatorOrderComplete();
    SingleInstructionKeysAmong(u, op, OperatorOrder);
  }

  lemma SingleInstructionKeysAmong(u: Update, op: UpdateOperator, ops: seq<UpdateOperator>)
    requires Keys(u.doc) == [] && Instructions(u, op) != []
    requires forall op' :: op' != op ==> Instructions(u, op') == []
    requires Distinct(ops) && op in ops
    ensures Keys(AddOperators(u.doc, u, ops)) == [OperatorName(op)]
  {
    AddOperatorsKeys(u.doc, u, ops);
    SingleActiveOperator(u, op, ops);
    assert Keys(u.doc) + [OperatorName(op)] == [OperatorName(op)];
  }

  lemma {:induction false} SingleActiveOperator(u: Update, op: UpdateOperator, ops: seq<UpdateOperator>)
    requires Instructions(u, op) != []
    requires forall op' :: op' != op ==> Instructions(u, op') == []
    requires Distinct(ops)
    ensures ActiveOperators(u, ops) == if op in ops then [OperatorName(op)] else []
    decreases |ops|
  {
    if |ops| > 0 {
      SingleActiveOperator(u, op, ops[1..]);
      if ops[0] == op {
        assert op !in ops[1..];
      }
    }
  }
}
