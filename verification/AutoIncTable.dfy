/** The decision table of the auto-increment pass: which auto-modify address, if any, replaces a separate add and
    memory access. */
module AutoIncTable {

  /** Where the add stands relative to the access, and whether it overwrites its own operand. */
  datatype Form = FormPreAdd | FormPreInc | FormPostAdd | FormPostInc {
    predicate IsPre() { FormPreAdd? || FormPreInc? }
  }

  datatype IncState = IncZero | IncNegSize | IncPosSize | IncNegAny | IncPosAny | IncReg

  datatype GenForm =
    | Nothing | SimplePreInc | SimplePostInc | SimplePreDec | SimplePostDec | DispPre | DispPost | RegPre | RegPost

  /** The addressing modes a target offers. */
  datatype Caps = Caps(preInc: bool, postInc: bool, preDec: bool, postDec: bool,
                       preDisp: bool, postDisp: bool, preReg: bool, postReg: bool)

  type Table = map<(IncState, IncState, Form), GenForm>

  function SetIncState(val: int, size: int): IncState {
    if val == 0 then IncZero
    else if val < 0 then (if val == -size then IncNegSize else IncNegAny)
    else (if val == size then IncPosSize else IncPosAny)
  }

  function Lookup(table: Table, inc: IncState, mem: IncState, form: Form): GenForm {
    if (inc, mem, form) in table then table[(inc, mem, form)] else Nothing
  }

  // ----- What the entries mean -----

  predicate Available(caps: Caps, g: GenForm) {
    match g
    case Nothing => false
    case SimplePreInc => caps.preInc
    case SimplePostInc => caps.postInc
    case SimplePreDec => caps.preDec
    case SimplePostDec => caps.postDec
    case DispPre => caps.preDisp
    case DispPost => caps.postDisp
    case RegPre => caps.preReg
    case RegPost => caps.postReg
  }

  predicate IsPreForm(g: GenForm) {
    g.SimplePreInc? || g.SimplePreDec? || g.DispPre? || g.RegPre?
  }

  /** The amount form `g` adds to the base register when the add added `c` and `size` bytes are accessed. */
  function Amount(g: GenForm, size: int, c: int): int {
    match g
    case SimplePreInc => size
    case SimplePostInc => size
    case SimplePreDec => -size
    case SimplePostDec => -size
    case _ => c
  }

  /** With base value `v` on entry, the pair "add `c`, access base + `m`" (in the order `form` gives) touches the
      same address as the single access of form `g`, and both leave the same base. */
  predicate Realises(g: GenForm, size: int, form: Form, c: int, m: int) {
    var separateAddress := if form.IsPre() then c + m else m;
    var mergedAddress := if IsPreForm(g) then Amount(g, size, c) else 0;
    g != Nothing && mergedAddress == separateAddress && Amount(g, size, c) == c
  }

  /** The entry as a closed form: the forms that access before or after the update, the simple one preferred. */
  function Decide(caps: Caps, inc: IncState, mem: IncState, form: Form): GenForm {
    var pre := if form.IsPre() then mem == IncZero else mem == inc;
    var post := if form.IsPre() then mem == Opposite(inc) else mem == IncZero;
    match inc
    case IncZero => Nothing
    case IncPosSize =>
      if pre && (caps.preInc || caps.preDisp) then (if caps.preInc then SimplePreInc else DispPre)
      else if post && (caps.postInc || caps.postDisp) then (if caps.postInc then SimplePostInc else DispPost)
      else Nothing
    case IncNegSize =>
      if pre && (caps.preDec || caps.preDisp) then (if caps.preDec then SimplePreDec else DispPre)
      else if post && (caps.postDec || caps.postDisp) then (if caps.postDec then SimplePostDec else DispPost)
      else Nothing
    case IncReg =>
      if pre && caps.preReg then RegPre
      else if post && !form.IsPre() && caps.postReg then RegPost
      else Nothing
    case _ =>
      if pre && caps.preDisp then DispPre
      else if post && caps.postDisp then DispPost
      else Nothing
  }

  function Opposite(s: IncState): IncState {
    match s
    case IncPosSize => IncNegSize
    case IncNegSize => IncPosSize
    case IncPosAny => IncNegAny
    case IncNegAny => IncPosAny
    case _ => s
  }

  /** Sets the entries of both the add and the inc variant of a form. */
  function Put(table: Table, inc: IncState, mem: IncState, pre: bool, value: GenForm): (r: Table)
    ensures forall i, m, f :: Lookup(r, i, m, f) ==
                              if i == inc && m == mem && f.IsPre() == pre then value else Lookup(table, i, m, f)
  {
    if pre then table[(inc, mem, FormPreAdd) := value][(inc, mem, FormPreInc) := value]
    else table[(inc, mem, FormPostAdd) := value][(inc, mem, FormPostInc) := value]
  }

  /** Row `inc` of the table is filled in as the closed form says, and the other rows are as before. */
  ghost predicate FillsRow(caps: Caps, before: Table, after: Table, inc: IncState) {
    forall i, m, f :: Lookup(after, i, m, f) == if i == inc then Decide(caps, i, m, f) else Lookup(before, i, m, f)
  }

  ghost predicate EmptyRow(table: Table, inc: IncState) {
    forall m, f :: Lookup(table, inc, m, f) == Nothing
  }

  /** The two rows for increments by the access size: those of one sign. */
  method InitSizeRow(caps: Caps, inc: IncState, table: Table) returns (r: Table)
    requires inc == IncPosSize || inc == IncNegSize
    requires EmptyRow(table, inc)
    ensures FillsRow(caps, table, r, inc)
  {
    r := table;
    var simplePre := if inc == IncPosSize then caps.preInc else caps.preDec;
    var simplePost := if inc == IncPosSize then caps.postInc else caps.postDec;
    if simplePre || caps.preDisp {
      var value := if !simplePre then DispPre else if inc == IncPosSize then SimplePreInc else SimplePreDec;
      r := Put(r, inc, IncZero, true, value);
      r := Put(r, inc, inc, false, value);
    }
    if simplePost || caps.postDisp {
      var value := if !simplePost then DispPost else if inc == IncPosSize then SimplePostInc else SimplePostDec;
      r := Put(r, inc, IncZero, false, value);
      r := Put(r, inc, Opposite(inc), true, value);
    }
  }

  /** The rows for increments by another constant. */
  method InitAnyRow(caps: Caps, inc: IncState, table: Table) returns (r: Table)
    requires inc == IncPosAny || inc == IncNegAny
    requires EmptyRow(table, inc)
    ensures FillsRow(caps, table, r, inc)
  {
    r := table;
    if caps.preDisp {
      r := Put(r, inc, IncZero, true, DispPre);
      r := Put(r, inc, inc, false, DispPre);
    }
    if caps.postDisp {
      r := Put(r, inc, IncZero, false, DispPost);
      r := Put(r, inc, Opposite(inc), true, DispPost);
    }
  }

  method InitDecisionTable(caps: Caps) returns (table: Table)
    ensures forall inc, mem, form :: Lookup(table, inc, mem, form) == Decide(caps, inc, mem, form)
  {
    table := map[];
    table := InitSizeRow(caps, IncPosSize, table);
    table := InitSizeRow(caps, IncNegSize, table);
    table := InitAnyRow(caps, IncPosAny, table);
    table := InitAnyRow(caps, IncNegAny, table);
    if caps.preReg {
      table := Put(table, IncReg, IncZero, true, RegPre);
      table := Put(table, IncReg, IncReg, false, RegPre);
    }
    if caps.postReg {
      table := Put(table, IncReg, IncZero, false, RegPost);
    }
  }

  // ----- Soundness and completeness of the entries -----

  /** For constant increments an entry names an available address form with the effect of the separate pair ... */
  lemma ConstantEntrySound(caps: Caps, size: int, c: int, m: int, form: Form)
    requires m == 0 || m == c || m == -c
    requires Decide(caps, SetIncState(c, size), SetIncState(m, size), form) != Nothing
    ensures var g := Decide(caps, SetIncState(c, size), SetIncState(m, size), form);
            Available(caps, g) && !g.RegPre? && !g.RegPost? && Realises(g, size, form, c, m)
  {
  }

  /** ... and is empty only when nothing is added or the target has no such form. */
  lemma ConstantEntryComplete(caps: Caps, size: int, c: int, m: int, form: Form, h: GenForm)
    requires size >= 0
    requires m == 0 || m == c || m == -c
    requires Available(caps, h) && !h.RegPre? && !h.RegPost? && Realises(h, size, form, c, m)
    ensures Decide(caps, SetIncState(c, size), SetIncState(m, size), form) == Nothing <==> c == 0
  {
  }

  /** The displacement test in front of the table is needed: with an arbitrary displacement the table alone can name a
      form that accesses another address. */
  lemma UncheckedDisplacement()
    ensures var caps := Caps(false, false, false, false, true, false, false, false);
            var g := Decide(caps, SetIncState(12, 4), SetIncState(20, 4), FormPostInc);
            g == DispPre && !Realises(g, 4, FormPostInc, 12, 20)
  {
  }

  /** For register increments of value `c`: an operand without displacement, or, after the access, with the same
      register as displacement. */
  lemma RegisterEntries(caps: Caps, size: int, c: int, same: bool, form: Form)
    ensures var g := Decide(caps, IncReg, if same then IncReg else IncZero, form);
            g != Nothing ==> Available(caps, g) && ((!same || !form.IsPre()) && Realises(g, size, form, c, if same then c else 0))
  {
  }
}
