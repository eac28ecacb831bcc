/**
 * Parameter-name validation (src/parser.ts: validateParam, checkPatternParam,
 * parseFormalParameter, parseFormalParameters).
 *
 * Every name a parameter list binds is checked against the names seen so far
 * and against the restricted (`eval`, `arguments`) and strict-mode reserved
 * words. The word lists belong to the scanner, which is not part of this
 * model, so they are parameters here.
 */
module Params {
  import opened Wrappers
  import opened Nodes

  /** The scanner's word classes. */
  datatype Words = Words(isRestrictedWord: string -> bool, isStrictModeReservedWord: string -> bool)

  datatype Message = StrictParamName | StrictReservedWord

  /** One bound name and the node that binds it (the node stands for its token). */
  datatype Binding = Binding(at: Node, name: string)

  /** The name-tracking part of the source's FormalParameters record. */
  datatype NameState = NameState(
    paramSet: set<string>,
    hasDuplicateParameterNames: bool,
    stricted: Option<Node>,
    firstRestricted: Option<Node>,
    message: Option<Message>)

  /** The state a parameter list starts in; a function's restricted name may already be recorded. */
  function Start(firstRestricted: Option<Node>): NameState {
    NameState({}, false, None, firstRestricted, None)
  }

  /**
   * validateParam exactly as the source has it. In strict mode a restricted
   * name and a repeated name both record the parameter in `stricted`. In sloppy
   * mode only the first restricted or reserved name is recorded, and a repeat is
   * noticed only while no such name has been recorded.
   */
  function ValidateParamAsWritten(words: Words, strict: bool, s: NameState, b: Binding): (t: NameState)
    ensures t.paramSet == s.paramSet + {b.name}
    ensures strict ==> t.firstRestricted == s.firstRestricted
    ensures s.firstRestricted.Some? ==> t.firstRestricted == s.firstRestricted
    ensures t.hasDuplicateParameterNames ==> s.hasDuplicateParameterNames || b.name in s.paramSet
  {
    var checked :=
      if strict then
        var r := if words.isRestrictedWord(b.name) then s.(stricted := Some(b.at), message := Some(StrictParamName)) else s;
        if b.name in s.paramSet then r.(stricted := Some(b.at), hasDuplicateParameterNames := true) else r
      else if s.firstRestricted.None? then
        if words.isRestrictedWord(b.name) then s.(firstRestricted := Some(b.at), message := Some(StrictParamName))
        else if words.isStrictModeReservedWord(b.name) then s.(firstRestricted := Some(b.at), message := Some(StrictReservedWord))
        else if b.name in s.paramSet then s.(stricted := Some(b.at), hasDuplicateParameterNames := true)
        else s
      else s;
    checked.(paramSet := s.paramSet + {b.name})
  }

  /** A name is flagged in sloppy mode when it is restricted or strict-mode reserved. */
  predicate Flagged(words: Words, name: string) {
    words.isRestrictedWord(name) || words.isStrictModeReservedWord(name)
  }

  /**
   * A repeated name slips through in sloppy mode: after `eval` has been
   * recorded as the first restricted name, the second `a` in `(eval, a, a)` is
   * not reported as a duplicate.
   */
  lemma SloppyDuplicateMissed(words: Words, e: Node, a1: Node, a2: Node)
    requires words.isRestrictedWord("eval") && !Flagged(words, "a")
    ensures var s := ValidateParamAsWritten(words, false, Start(None), Binding(e, "eval"));
            var t := ValidateParamAsWritten(words, false, ValidateParamAsWritten(words, false, s, Binding(a1, "a")), Binding(a2, "a"));
            !t.hasDuplicateParameterNames && t.firstRestricted == Some(e)
  {
  }

  /**
   * validateParam with the duplicate check made independent of the sloppy-mode
   * restricted-name bookkeeping: every repeat sets hasDuplicateParameterNames.
   * All other fields are as the source computes them.
   */
  function ValidateParam(words: Words, strict: bool, s: NameState, b: Binding): (t: NameState)
    ensures t.paramSet == s.paramSet + {b.name}
    ensures t.hasDuplicateParameterNames <==> s.hasDuplicateParameterNames || b.name in s.paramSet
    ensures t.(hasDuplicateParameterNames := false) == ValidateParamAsWritten(words, strict, s, b).(hasDuplicateParameterNames := false)
  {
    var t := ValidateParamAsWritten(words, strict, s, b);
    if b.name in s.paramSet then t.(hasDuplicateParameterNames := true) else t
  }

  /** The two agree whenever the source's sloppy-mode chain reaches its duplicate test. */
  lemma {:induction false} CorrectionOnlyAddsDuplicates(words: Words, strict: bool, s: NameState, b: Binding)
    ensures strict || (s.firstRestricted.None? && !Flagged(words, b.name)) ==>
              ValidateParam(words, strict, s, b) == ValidateParamAsWritten(words, strict, s, b)
    ensures ValidateParamAsWritten(words, strict, s, b).hasDuplicateParameterNames ==> ValidateParam(words, strict, s, b).hasDuplicateParameterNames
  {
    if strict || (s.firstRestricted.None? && !Flagged(words, b.name)) {
      var t := ValidateParamAsWritten(words, strict, s, b);
      assert t.hasDuplicateParameterNames <==> s.hasDuplicateParameterNames || b.name in s.paramSet;
    }
  }

  /** Which validateParam a parameter list is checked with: the source's, or the corrected one. */
  datatype Mode = AsWritten | Corrected

  function Validate(mode: Mode, words: Words, strict: bool, s: NameState, b: Binding): (t: NameState)
    ensures t.paramSet == s.paramSet + {b.name}
    ensures t.hasDuplicateParameterNames ==> s.hasDuplicateParameterNames || b.name in s.paramSet
    ensures mode == Corrected ==> (t.hasDuplicateParameterNames <==> s.hasDuplicateParameterNames || b.name in s.paramSet)
    ensures t.(hasDuplicateParameterNames := false) == ValidateParamAsWritten(words, strict, s, b).(hasDuplicateParameterNames := false)
  {
    if mode == AsWritten then ValidateParamAsWritten(words, strict, s, b) else ValidateParam(words, strict, s, b)
  }

  /** validateParam applied to each binding in order. */
  function ValidateAll(mode: Mode, words: Words, strict: bool, s: NameState, bs: seq<Binding>): (t: NameState)
    decreases |bs|
  {
    if |bs| == 0 then s
    else Validate(mode, words, strict, ValidateAll(mode, words, strict, s, bs[..|bs| - 1]), bs[|bs| - 1])
  }

  /** The names of a binding sequence. */
  function Names(bs: seq<Binding>): set<string> {
    set i | 0 <= i < |bs| :: bs[i].name
  }

  /** Some name is bound twice. */
  predicate HasRepeat(bs: seq<Binding>) {
    exists i, j :: 0 <= i < j < |bs| && bs[i].name == bs[j].name
  }

  /** Every name is added to the seen-set. */
  lemma {:induction false} ValidateAllCollectsNames(mode: Mode, words: Words, strict: bool, s: NameState, bs: seq<Binding>)
    ensures ValidateAll(mode, words, strict, s, bs).paramSet == s.paramSet + Names(bs)
  {
    if |bs| > 0 {
      var init := bs[..|bs| - 1];
      ValidateAllCollectsNames(mode, words, strict, s, init);
      assert Names(bs) == Names(init) + {bs[|bs| - 1].name} by {
        forall x | x in Names(bs) ensures x in Names(init) + {bs[|bs| - 1].name} {
          var i :| 0 <= i < |bs| && bs[i].name == x;
          if i < |bs| - 1 {
            assert init[i] == bs[i];
          }
        }
        forall x | x in Names(init) ensures x in Names(bs) {
          var i :| 0 <= i < |init| && init[i].name == x;
          assert bs[i] == init[i];
        }
      }
    }
  }

  /**
   * From a fresh start, hasDuplicateParameterNames is only ever set for a name
   * bound twice, in either mode; with the corrected check it is set exactly then.
   */
  lemma {:induction false} DuplicateIffRepeat(mode: Mode, words: Words, strict: bool, s: NameState, bs: seq<Binding>)
    requires s.paramSet == {} && !s.hasDuplicateParameterNames
    ensures ValidateAll(mode, words, strict, s, bs).hasDuplicateParameterNames ==> HasRepeat(bs)
    ensures mode == Corrected ==> (ValidateAll(mode, words, strict, s, bs).hasDuplicateParameterNames <==> HasRepeat(bs))
  {
    if |bs| > 0 {
      var init, last := bs[..|bs| - 1], bs[|bs| - 1];
      DuplicateIffRepeat(mode, words, strict, s, init);
      ValidateAllCollectsNames(mode, words, strict, s, init);
      if HasRepeat(bs) {
        var i, j :| 0 <= i < j < |bs| && bs[i].name == bs[j].name;
        if j < |bs| - 1 {
          assert init[i].name == init[j].name;
        } else {
          assert init[i] == bs[i];
          assert last.name in Names(init);
        }
      }
      if last.name in Names(init) {
        var i :| 0 <= i < |init| && init[i].name == last.name;
        assert bs[i].name == bs[|bs| - 1].name;
      }
      if HasRepeat(init) {
        var i, j :| 0 <= i < j < |init| && init[i].name == init[j].name;
        assert bs[i].name == bs[j].name;
      }
    }
  }

  /** The source's validateParam never reads hasDuplicateParameterNames. */
  lemma AsWrittenIgnoresDuplicateFlag(words: Words, strict: bool, a: NameState, c: NameState, b: Binding)
    requires a.(hasDuplicateParameterNames := false) == c.(hasDuplicateParameterNames := false)
    ensures ValidateParamAsWritten(words, strict, a, b).(hasDuplicateParameterNames := false)
         == ValidateParamAsWritten(words, strict, c, b).(hasDuplicateParameterNames := false)
  {
    assert a.paramSet == c.paramSet && a.firstRestricted == c.firstRestricted;
  }

  /**
   * Over a whole list the two modes compute the same stricted, firstRestricted,
   * message and seen-set, and the corrected check flags every list the source
   * flags.
   */
  lemma {:induction false} ModesDifferOnlyInDuplicates(words: Words, strict: bool, s: NameState, bs: seq<Binding>)
    ensures ValidateAll(AsWritten, words, strict, s, bs).(hasDuplicateParameterNames := false)
         == ValidateAll(Corrected, words, strict, s, bs).(hasDuplicateParameterNames := false)
    ensures ValidateAll(AsWritten, words, strict, s, bs).hasDuplicateParameterNames
            ==> ValidateAll(Corrected, words, strict, s, bs).hasDuplicateParameterNames
  {
    if |bs| > 0 {
      var init, last := bs[..|bs| - 1], bs[|bs| - 1];
      ModesDifferOnlyInDuplicates(words, strict, s, init);
      var ua, uc := ValidateAll(AsWritten, words, strict, s, init), ValidateAll(Corrected, words, strict, s, init);
      assert ua.paramSet == uc.paramSet;
      AsWrittenIgnoresDuplicateFlag(words, strict, ua, uc, last);
    }
  }

  /**
   * The source's check flags exactly the repeats in strict mode, and in sloppy
   * mode as long as no restricted or reserved name comes first: then the two
   * modes compute the same state.
   */
  lemma {:induction false} AsWrittenAgreesUnlessRestricted(words: Words, strict: bool, s: NameState, bs: seq<Binding>)
    requires strict || (s.firstRestricted.None? && forall i :: 0 <= i < |bs| ==> !Flagged(words, bs[i].name))
    ensures ValidateAll(AsWritten, words, strict, s, bs) == ValidateAll(Corrected, words, strict, s, bs)
    ensures !strict ==> ValidateAll(AsWritten, words, strict, s, bs).firstRestricted.None?
  {
    if |bs| > 0 {
      var init, last := bs[..|bs| - 1], bs[|bs| - 1];
      if !strict {
        forall i | 0 <= i < |init| ensures !Flagged(words, init[i].name) {
          assert init[i] == bs[i];
        }
      }
      AsWrittenAgreesUnlessRestricted(words, strict, s, init);
      CorrectionOnlyAddsDuplicates(words, strict, ValidateAll(AsWritten, words, strict, s, init), last);
    }
  }

  /**
   * The source's check misses repeats in sloppy mode: with `eval` recorded as
   * firstRestricted, `(eval, a, a)` ends without the flag, while the corrected
   * check sets it.
   */
  lemma AsWrittenMissesRepeat(words: Words, e: Node, a1: Node, a2: Node)
    requires words.isRestrictedWord("eval") && !Flagged(words, "a")
    ensures var bs := [Binding(e, "eval"), Binding(a1, "a"), Binding(a2, "a")];
            && HasRepeat(bs)
            && !ValidateAll(AsWritten, words, false, Start(None), bs).hasDuplicateParameterNames
            && ValidateAll(AsWritten, words, false, Start(None), bs).firstRestricted == Some(e)
            && ValidateAll(Corrected, words, false, Start(None), bs).hasDuplicateParameterNames
  {
    var bs := [Binding(e, "eval"), Binding(a1, "a"), Binding(a2, "a")];
    assert bs[1].name == bs[2].name;
    assert bs[..2][..1] == bs[..1] == [Binding(e, "eval")];
    assert bs[..1][..0] == [];
    DuplicateIffRepeat(Corrected, words, false, Start(None), bs);
    SloppyDuplicateMissed(words, e, a1, a2);
    var s1 := ValidateParamAsWritten(words, false, Start(None), Binding(e, "eval"));
    var s2 := ValidateParamAsWritten(words, false, s1, Binding(a1, "a"));
    assert ValidateAll(AsWritten, words, false, Start(None), bs[..1]) == s1;
    assert ValidateAll(AsWritten, words, false, Start(None), bs[..2]) == s2;
    assert ValidateAll(AsWritten, words, false, Start(None), bs) == ValidateParamAsWritten(words, false, s2, Binding(a2, "a"));
  }

  /**
   * In sloppy mode, starting with nothing recorded, firstRestricted ends up as
   * the first binding whose name is restricted or reserved, if there is one.
   */
  lemma {:induction false} FirstRestrictedIsFirstFlagged(mode: Mode, words: Words, s: NameState, bs: seq<Binding>)
    requires s.firstRestricted.None?
    ensures var t := ValidateAll(mode, words, false, s, bs);
            t.firstRestricted.Some? <==> exists i :: 0 <= i < |bs| && Flagged(words, bs[i].name)
    ensures var t := ValidateAll(mode, words, false, s, bs);
            t.firstRestricted.Some? ==>
              exists i :: 0 <= i < |bs| && Flagged(words, bs[i].name) && t.firstRestricted.value == bs[i].at
                          && forall j :: 0 <= j < i ==> !Flagged(words, bs[j].name)
  {
    if |bs| > 0 {
      var init, last := bs[..|bs| - 1], bs[|bs| - 1];
      FirstRestrictedIsFirstFlagged(mode, words, s, init);
      var u := ValidateAll(mode, words, false, s, init);
      assert ValidateAll(mode, words, false, s, bs).firstRestricted == ValidateParamAsWritten(words, false, u, last).firstRestricted;
      if u.firstRestricted.Some? {
        var i :| 0 <= i < |init| && Flagged(words, init[i].name) && u.firstRestricted.value == init[i].at
                 && forall j :: 0 <= j < i ==> !Flagged(words, init[j].name);
        assert bs[i] == init[i];
        forall j | 0 <= j < i ensures !Flagged(words, bs[j].name) {
          assert bs[j] == init[j];
        }
      } else {
        forall j | 0 <= j < |bs| - 1 ensures !Flagged(words, bs[j].name) {
          assert bs[j] == init[j];
        }
      }
    }
  }

  /** In strict mode a restricted name always leaves the StrictParamName message. */
  lemma {:induction false} StrictRestrictedSetsMessage(mode: Mode, words: Words, s: NameState, bs: seq<Binding>)
    requires exists i :: 0 <= i < |bs| && words.isRestrictedWord(bs[i].name)
    ensures ValidateAll(mode, words, true, s, bs).message == Some(StrictParamName)
    ensures ValidateAll(mode, words, true, s, bs).stricted.Some?
  {
    var init, last := bs[..|bs| - 1], bs[|bs| - 1];
    var u := ValidateAll(mode, words, true, s, init);
    assert ValidateAll(mode, words, true, s, bs).(hasDuplicateParameterNames := false)
        == ValidateParamAsWritten(words, true, u, last).(hasDuplicateParameterNames := false);
    if !words.isRestrictedWord(last.name) {
      var i :| 0 <= i < |bs| && words.isRestrictedWord(bs[i].name);
      assert init[i] == bs[i];
      StrictRestrictedSetsMessage(mode, words, s, init);
    }
  }
  // ---------------------------------------------------------------------------
  // Patterns.

  /**
   * The names a parameter pattern binds, left to right: identifiers, through
   * rest arguments, the left of defaults, array elements and object property
   * values. These are the tokens the pattern parser collects for validation.
   */
  function Bindings(p: Node): seq<Binding>
    decreases p, 1
  {
    if p.Identifier? then [Binding(p, p.name)]
    else if p.RestElement? then Bindings(p.argument)
    else if p.AssignmentPattern? then Bindings(p.left)
    else if p.ArrayPattern? then ElementBindings(p, |p.elements|)
    else if p.ObjectPattern? then PropertyBindings(p, |p.properties|)
    else []
  }

  function ElementBindings(p: Node, k: nat): seq<Binding>
    requires p.ArrayPattern? && k <= |p.elements|
    decreases p, 0, k
  {
    if k == 0 then []
    else
      ElementBindings(p, k - 1)
      + (if p.elements[k - 1].Some? then Bindings(p.elements[k - 1].value) else [])
  }

  function PropertyBindings(p: Node, k: nat): seq<Binding>
    requires p.ObjectPattern? && k <= |p.properties|
    decreases p, 0, k
  {
    if k == 0 then []
    else
      var prop := p.properties[k - 1];
      PropertyBindings(p, k - 1)
      + (if prop.RestElement? then Bindings(prop)
         else if prop.Property? then Bindings(prop.propertyValue)
         else [])
  }

  /** The source's FormalParameters under construction: the simple flag and the name state. */
  datatype Options = Options(simple: bool, names: NameState)

  /**
   * checkPatternParam: validate every identifier the pattern binds, and clear
   * `simple` at every node that is not an identifier. The list stays simple
   * only through a plain identifier, and a plain identifier is validated
   * under its own name.
   */
  function CheckPatternParam(mode: Mode, words: Words, strict: bool, o: Options, p: Node): (r: Options)
    ensures r.simple == (o.simple && p.Identifier?)
    ensures p.Identifier? ==> r.names.paramSet == o.names.paramSet + {p.name}
    decreases p, 2
  {
    var visited :=
      if p.Identifier? then o.(names := Validate(mode, words, strict, o.names, Binding(p, p.name)))
      else if p.RestElement? then CheckPatternParam(mode, words, strict, o, p.argument)
      else if p.AssignmentPattern? then CheckPatternParam(mode, words, strict, o, p.left)
      else if p.ArrayPattern? then CheckElements(mode, words, strict, o, p, |p.elements|)
      else if p.ObjectPattern? then CheckProperties(mode, words, strict, o, p, |p.properties|)
      else o;
    visited.(simple := visited.simple && p.Identifier?)
  }

  /** The non-hole array elements, left to right. */
  function CheckElements(mode: Mode, words: Words, strict: bool, o: Options, p: Node, k: nat): Options
    requires p.ArrayPattern? && k <= |p.elements|
    decreases p, 1, k
  {
    if k == 0 then o
    else
      var before := CheckElements(mode, words, strict, o, p, k - 1);
      if p.elements[k - 1].Some? then CheckPatternParam(mode, words, strict, before, p.elements[k - 1].value)
      else before
  }

  /**
   * The properties, left to right: a rest property itself, any other through
   * its value; an entry with no value (not a Property) only clears `simple`.
   */
  function CheckProperties(mode: Mode, words: Words, strict: bool, o: Options, p: Node, k: nat): Options
    requires p.ObjectPattern? && k <= |p.properties|
    decreases p, 1, k
  {
    if k == 0 then o
    else
      var before := CheckProperties(mode, words, strict, o, p, k - 1);
      var prop := p.properties[k - 1];
      if prop.RestElement? then CheckPatternParam(mode, words, strict, before, prop)
      else if prop.Property? then CheckPatternParam(mode, words, strict, before, prop.propertyValue)
      else before.(simple := false)
  }

  /** Validating a concatenation is validating its parts in turn. */
  lemma {:induction false} ValidateAllAppend(mode: Mode, words: Words, strict: bool, s: NameState, a: seq<Binding>, b: seq<Binding>)
    ensures ValidateAll(mode, words, strict, s, a + b) == ValidateAll(mode, words, strict, ValidateAll(mode, words, strict, s, a), b)
    decreases |b|
  {
    if |b| == 0 {
      assert a + b == a;
    } else {
      assert (a + b)[..|a + b| - 1] == a + b[..|b| - 1];
      ValidateAllAppend(mode, words, strict, s, a, b[..|b| - 1]);
    }
  }

  /**
   * In either mode, checkPatternParam is that mode's validateParam over the
   * pattern's bound names, and it leaves `simple` set only for a lone identifier.
   */
  lemma {:induction false} CheckPatternIsValidateAll(mode: Mode, words: Words, strict: bool, o: Options, p: Node)
    ensures CheckPatternParam(mode, words, strict, o, p).names == ValidateAll(mode, words, strict, o.names, Bindings(p))
    ensures CheckPatternParam(mode, words, strict, o, p).simple == (o.simple && p.Identifier?)
    decreases p, 2
  {
    if p.Identifier? {
      assert Bindings(p)[..0] == [];
    } else if p.RestElement? {
      CheckPatternIsValidateAll(mode, words, strict, o, p.argument);
    } else if p.AssignmentPattern? {
      CheckPatternIsValidateAll(mode, words, strict, o, p.left);
    } else if p.ArrayPattern? {
      CheckElementsIsValidateAll(mode, words, strict, o, p, |p.elements|);
    } else if p.ObjectPattern? {
      CheckPropertiesIsValidateAll(mode, words, strict, o, p, |p.properties|);
    }
  }

  lemma {:induction false} CheckElementsIsValidateAll(mode: Mode, words: Words, strict: bool, o: Options, p: Node, k: nat)
    requires p.ArrayPattern? && k <= |p.elements|
    ensures CheckElements(mode, words, strict, o, p, k).names == ValidateAll(mode, words, strict, o.names, ElementBindings(p, k))
    decreases p, 1, k
  {
    if k > 0 {
      CheckElementsIsValidateAll(mode, words, strict, o, p, k - 1);
      var before := CheckElements(mode, words, strict, o, p, k - 1);
      if p.elements[k - 1].Some? {
        CheckPatternIsValidateAll(mode, words, strict, before, p.elements[k - 1].value);
        ValidateAllAppend(mode, words, strict, o.names, ElementBindings(p, k - 1), Bindings(p.elements[k - 1].value));
      } else {
        assert ElementBindings(p, k) == ElementBindings(p, k - 1) + [] == ElementBindings(p, k - 1);
      }
    }
  }

  lemma {:induction false} CheckPropertiesIsValidateAll(mode: Mode, words: Words, strict: bool, o: Options, p: Node, k: nat)
    requires p.ObjectPattern? && k <= |p.properties|
    ensures CheckProperties(mode, words, strict, o, p, k).names == ValidateAll(mode, words, strict, o.names, PropertyBindings(p, k))
    decreases p, 1, k
  {
    if k > 0 {
      CheckPropertiesIsValidateAll(mode, words, strict, o, p, k - 1);
      var before := CheckProperties(mode, words, strict, o, p, k - 1);
      var prop := p.properties[k - 1];
      if prop.RestElement? {
        CheckPatternIsValidateAll(mode, words, strict, before, prop);
        ValidateAllAppend(mode, words, strict, o.names, PropertyBindings(p, k - 1), Bindings(prop));
      } else if prop.Property? {
        CheckPatternIsValidateAll(mode, words, strict, before, prop.propertyValue);
        ValidateAllAppend(mode, words, strict, o.names, PropertyBindings(p, k - 1), Bindings(prop.propertyValue));
      } else {
        assert PropertyBindings(p, k) == PropertyBindings(p, k - 1) + [] == PropertyBindings(p, k - 1);
      }
    }
  }

  // ---------------------------------------------------------------------------
  // Formal parameter lists.

  /** The names bound by a whole parameter list, in order. */
  function AllBindings(params: seq<Node>): seq<Binding> {
    if |params| == 0 then []
    else AllBindings(params[..|params| - 1]) + Bindings(params[|params| - 1])
  }

  predicate AllIdentifiers(params: seq<Node>) {
    forall i :: 0 <= i < |params| ==> params[i].Identifier?
  }

  /** Extending the prefix by one parameter extends its bindings and its simplicity. */
  lemma PrefixStep(params: seq<Node>, i: nat)
    requires i < |params|
    ensures AllBindings(params[..i + 1]) == AllBindings(params[..i]) + Bindings(params[i])
    ensures AllIdentifiers(params[..i + 1]) <==> AllIdentifiers(params[..i]) && params[i].Identifier?
  {
    assert params[..i + 1][..i] == params[..i];
    assert params[..i + 1][i] == params[i];
  }

  /** Validating one more parameter continues the validation of the prefix. */
  lemma PrefixValidates(mode: Mode, words: Words, strict: bool, s: NameState, params: seq<Node>, i: nat)
    requires i < |params|
    ensures ValidateAll(mode, words, strict, ValidateAll(mode, words, strict, s, AllBindings(params[..i])), Bindings(params[i]))
         == ValidateAll(mode, words, strict, s, AllBindings(params[..i + 1]))
    ensures AllIdentifiers(params[..i + 1]) <==> AllIdentifiers(params[..i]) && params[i].Identifier?
  {
    PrefixStep(params, i);
    ValidateAllAppend(mode, words, strict, s, AllBindings(params[..i]), Bindings(params[i]));
  }

  datatype FormalParameters = FormalParameters(
    simple: bool,
    params: seq<Node>,
    stricted: Option<Node>,
    firstRestricted: Option<Node>,
    message: Option<Message>)

  datatype ParamError = DuplicateParameter

  /** No bound name is restricted or strict-mode reserved. */
  predicate NoneFlagged(words: Words, bs: seq<Binding>) {
    forall i :: 0 <= i < |bs| ==> !Flagged(words, bs[i].name)
  }

  /**
   * parseFormalParameters over already-parsed parameters: validate every bound
   * name in order, note whether every parameter is a plain identifier, and
   * reject the list when hasDuplicateParameterNames ends up set and the context
   * is strict or async or the list is not simple.
   *
   * A rejection always means a repeated name. With the corrected check every
   * repeat in such a context is rejected; the source's check agrees in strict
   * mode and whenever no restricted or reserved name was recorded.
   */
  method ParseFormalParameters(mode: Mode, words: Words, strict: bool, isAsync: bool, firstRestricted: Option<Node>, params: seq<Node>)
    returns (r: Result<FormalParameters, ParamError>)
    ensures r.Err? <==> ValidateAll(mode, words, strict, Start(firstRestricted), AllBindings(params)).hasDuplicateParameterNames
                        && (strict || isAsync || !AllIdentifiers(params))
    ensures r.Err? ==> r.error == DuplicateParameter && HasRepeat(AllBindings(params))
    ensures mode == Corrected ==>
              (r.Err? <==> HasRepeat(AllBindings(params)) && (strict || isAsync || !AllIdentifiers(params)))
    ensures strict || (firstRestricted.None? && NoneFlagged(words, AllBindings(params))) ==>
              (r.Err? <==> HasRepeat(AllBindings(params)) && (strict || isAsync || !AllIdentifiers(params)))
    ensures r.Ok? ==> r.value.params == params && (r.value.simple <==> AllIdentifiers(params))
    ensures r.Ok? ==> var t := ValidateAll(AsWritten, words, strict, Start(firstRestricted), AllBindings(params));
                      r.value.stricted == t.stricted && r.value.firstRestricted == t.firstRestricted
                      && r.value.message == t.message
  {
    var simple := true;
    var names := Start(firstRestricted);
    var i := 0;
    while i < |params|
      invariant 0 <= i <= |params|
      invariant names == ValidateAll(mode, words, strict, Start(firstRestricted), AllBindings(params[..i]))
      invariant simple <==> AllIdentifiers(params[..i])
    {
      var p := params[i];
      names := ValidateAll(mode, words, strict, names, Bindings(p));
      simple := simple && p.Identifier?;
      PrefixValidates(mode, words, strict, Start(firstRestricted), params, i);
      i := i + 1;
    }
    assert params[..i] == params;
    DuplicateIffRepeat(mode, words, strict, Start(firstRestricted), AllBindings(params));
    DuplicateIffRepeat(Corrected, words, strict, Start(firstRestricted), AllBindings(params));
    ModesDifferOnlyInDuplicates(words, strict, Start(firstRestricted), AllBindings(params));
    if strict || (firstRestricted.None? && NoneFlagged(words, AllBindings(params))) {
      AsWrittenAgreesUnlessRestricted(words, strict, Start(firstRestricted), AllBindings(params));
    }
    if names.hasDuplicateParameterNames && (strict || isAsync || !simple) {
      return Err(DuplicateParameter);
    }
    return Ok(FormalParameters(simple, params, names.stricted, names.firstRestricted, names.message));
  }

  /** The bindings of `(eval, a, [a])`. */
  lemma RepeatAfterRestrictedBindings()
    ensures var params := [Identifier("eval"), Identifier("a"), ArrayPattern([Some(Identifier("a"))])];
            && AllBindings(params) == [Binding(Identifier("eval"), "eval"), Binding(Identifier("a"), "a"), Binding(Identifier("a"), "a")]
            && !AllIdentifiers(params)
  {
    var params := [Identifier("eval"), Identifier("a"), ArrayPattern([Some(Identifier("a"))])];
    assert params[..2][..1] == [Identifier("eval")];
    assert params[..2] == [Identifier("eval"), Identifier("a")];
    assert AllBindings(params[..1]) == [Binding(Identifier("eval"), "eval")];
    assert AllBindings(params[..2]) == [Binding(Identifier("eval"), "eval"), Binding(Identifier("a"), "a")];
    assert ElementBindings(params[2], 1) == [Binding(Identifier("a"), "a")];
  }

  /**
   * `function f(eval, a, [a]) {}` in sloppy code: the source accepts the list,
   * because the repeat comes after the restricted `eval`, although a list that
   * is not simple must not repeat a name; the corrected check rejects it.
   */
  method RepeatAfterRestricted(words: Words)
    returns (asWritten: Result<FormalParameters, ParamError>, corrected: Result<FormalParameters, ParamError>)
    requires words.isRestrictedWord("eval") && !Flagged(words, "a")
    ensures asWritten.Ok? && !asWritten.value.simple && asWritten.value.firstRestricted == Some(Identifier("eval"))
    ensures corrected == Err(DuplicateParameter)
  {
    var params := [Identifier("eval"), Identifier("a"), ArrayPattern([Some(Identifier("a"))])];
    RepeatAfterRestrictedBindings();
    AsWrittenMissesRepeat(words, Identifier("eval"), Identifier("a"), Identifier("a"));
    asWritten := ParseFormalParameters(AsWritten, words, false, false, None, params);
    corrected := ParseFormalParameters(Corrected, words, false, false, None, params);
  }
}
