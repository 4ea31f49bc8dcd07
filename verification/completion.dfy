/**
 pgCompletion: the ordered trigger pipeline that decides, for one completion
 request, whether to suppress completion, to answer with the arrow-method
 snippets, to answer with the `$` variables, or to accumulate block-scaffold
 snippets followed by operator names.
 */
module PgCompletion {
  import opened Wrappers
  import opened Patterns
  import opened Syntax

  /** The `type` tag of an option: 'interface', 'type' or 'variable'. */
  datatype Kind = Interface | Type | Variable

  /** A completion option: its label (`text`), type tag, boost, and snippet template (None for a plain option). */
  datatype Completion = Completion(text: string, kind: Kind, boost: Option<int>, template: Option<string>)

  /**
   One completion request. `before` is the text `matchBefore` searches, from the
   start of the cursor's line to the cursor; `wordFrom` is where the host's match of the
   word-character pattern before the cursor starts, when it reports one; `chain` is the ancestor
   chain of the node the tree resolves at the cursor.
   */
  datatype Request = Request(pos: nat, explicit: bool, before: string, wordFrom: Option<nat>, chain: Chain)

  /** The lookup tables of variable names and operator names, in iteration order. */
  datatype Tables = Tables(variables: seq<string>, operators: seq<string>)

  /**
   The outcome: no completion (`undefined`), a result built here with its start
   offset, or the option list handed to the host's list completer.
   */
  datatype Answer = Suppressed | Direct(from: nat, options: seq<Completion>) | Listed(options: seq<Completion>)

  const EmbeddedBlocks: NodeNames := AnyOf(["PGMLBlock", "PGTextBlock"])
  const MethodInvocation: NodeNames := Single("MethodInvocation")
  const HeredocBodies: NodeNames := AnyOf(["InterpolatedHeredocBody", "UninterpolatedHeredocBody"])
  const CallNames: NodeNames := AnyOf(["CallExpression", "FunctionName", "Identifier"])
  const ArgumentNames: NodeNames := AnyOf(["Arguments", "ParenthesizedArguments"])

  const ImageNames: seq<string> := ["LATEX_IMAGE", "TIKZ"]
  const BlockNames: seq<string> := ["PGML", "PGML_HINT", "PGML_SOLUTION", "TEXT", "HINT", "SOLUTION"]
  const TopBoost: int := 99

  /** The snippet `BEGIN_<t>`, empty editable line, `END_<t>`, ranked `i`-th. */
  function Snippet(t: string, kind: Kind, i: int): Completion {
    Completion("BEGIN_" + t, kind, Some(TopBoost - i), Some(Template(t)))
  }

  /** `BEGIN_<t>`, a line holding the editable field `${}`, `END_<t>`. */
  function Template(t: string): string {
    "BEGIN_" + t + "\n${}\nEND_" + t
  }

  function Snippets(names: seq<string>, kind: Kind): seq<Completion> {
    seq(|names|, i requires 0 <= i < |names| => Snippet(names[i], kind, i))
  }

  function VariableOptions(variables: seq<string>): seq<Completion> {
    seq(|variables|, i requires 0 <= i < |variables| => Completion("$" + variables[i], Variable, None, None))
  }

  function OperatorOptions(operators: seq<string>): seq<Completion> {
    seq(|operators|, i requires 0 <= i < |operators| => Completion(operators[i], Variable, None, None))
  }

  /** The embedded-block guard: the cursor is in a complete PGML or PGText block. */
  predicate InCompleteEmbeddedBlock(chain: Chain) {
    var f := Inside(chain, EmbeddedBlocks);
    f.Some? && f.value.level.Code() == 2
  }

  /** The arrow trigger: the arrow-method snippets apply. */
  predicate ArrowApplies(req: Request) {
    var mi := Inside(req.chain, MethodInvocation);
    && mi.Some?
    && (ParentName(req.chain, mi.value.at) == Some("ExpressionStatement") || req.explicit)
    && req.chain[mi.value.at].arrowEnd.Some?
    && EndsWithArrowWord(req.before)
    && (req.chain[mi.value.at].arrowEnd.value == req.pos || req.wordFrom.Some?)
  }

  /** The block trigger: the block-scaffold snippets apply. */
  predicate BlocksApply(isTop: bool, req: Request) {
    && isTop
    && Inside(req.chain, HeredocBodies).None?
    && ((IsBlankThenWord(req.before) && req.explicit) || IsBlankThenB(req.before))
  }

  /** The operator trigger: the operator names apply. */
  predicate OperatorsApply(req: Request) {
    Inside(req.chain, CallNames).Some? && Inside(req.chain, ArgumentNames).None?
  }

  /** The completion source, for a grammar that is (`isTop`) or is not the top-level one. */
  function Respond(isTop: bool, req: Request, tables: Tables): (a: Answer)
    ensures a.Suppressed? || a.Direct? ==> isTop
  {
    if isTop && InCompleteEmbeddedBlock(req.chain) then Suppressed
    else if isTop && ArrowApplies(req) then Direct(req.wordFrom.GetOr(req.pos), Snippets(ImageNames, Interface))
    else if EndsWithSigilWord(req.before) then Listed(VariableOptions(tables.variables))
    else Listed(Accumulated(isTop, req, tables))
  }

  /** The accumulated list: the block snippets when they apply, then the operators when they apply. */
  function Accumulated(isTop: bool, req: Request, tables: Tables): seq<Completion> {
    (if BlocksApply(isTop, req) then Snippets(BlockNames, Type) else []) +
    (if OperatorsApply(req) then OperatorOptions(tables.operators) else [])
  }

  // Readings of each trigger's context that do not go through the walk or the
  // scanning matchers: the nearest wanted ancestor, and the split a pattern makes.

  ghost predicate InCompleteBlockContext(chain: Chain) {
    exists m :: NearestIs(chain, EmbeddedBlocks, m) && LevelOf(chain[m]) == Complete
  }

  ghost predicate ArrowContext(req: Request) {
    && (exists j :: ArrowMatchAt(req.before, j))
    && exists m :: && NearestIs(req.chain, MethodInvocation, m)
                   && (ParentName(req.chain, m) == Some("ExpressionStatement") || req.explicit)
                   && req.chain[m].arrowEnd.Some?
                   && (req.chain[m].arrowEnd.value == req.pos || req.wordFrom.Some?)
  }

  ghost predicate BlockContext(isTop: bool, req: Request) {
    && isTop
    && Outside(req.chain, HeredocBodies)
    && (((exists i :: BlankWordSplit(req.before, i)) && req.explicit) || exists i :: BlankBSplit(req.before, i))
  }

  ghost predicate OperatorContext(req: Request) {
    (exists m :: NearestIs(req.chain, CallNames, m)) && Outside(req.chain, ArgumentNames)
  }

  lemma InCompleteBlockAgrees(chain: Chain)
    ensures InCompleteEmbeddedBlock(chain) <==> InCompleteBlockContext(chain)
  {
    var f := Inside(chain, EmbeddedBlocks);
    if f.Some? {
      assert NearestIs(chain, EmbeddedBlocks, f.value.at);
    }
    if m :| NearestIs(chain, EmbeddedBlocks, m) && LevelOf(chain[m]) == Complete {
      InsideIsNearest(chain, EmbeddedBlocks, m);
    }
  }

  lemma ArrowAgrees(req: Request)
    ensures ArrowApplies(req) <==> ArrowContext(req)
  {
    ArrowMatchIff(req.before);
    var f := Inside(req.chain, MethodInvocation);
    if f.Some? {
      assert NearestIs(req.chain, MethodInvocation, f.value.at);
    }
    if ArrowContext(req) {
      var m :| && NearestIs(req.chain, MethodInvocation, m)
               && (ParentName(req.chain, m) == Some("ExpressionStatement") || req.explicit)
               && req.chain[m].arrowEnd.Some?
               && (req.chain[m].arrowEnd.value == req.pos || req.wordFrom.Some?);
      InsideIsNearest(req.chain, MethodInvocation, m);
    }
  }

  lemma BlocksAgree(isTop: bool, req: Request)
    ensures BlocksApply(isTop, req) <==> BlockContext(isTop, req)
  {
    BlankThenWordIff(req.before);
    BlankThenBIff(req.before);
  }

  lemma OperatorsAgree(req: Request)
    ensures OperatorsApply(req) <==> OperatorContext(req)
  {
    var f := Inside(req.chain, CallNames);
    if f.Some? {
      assert NearestIs(req.chain, CallNames, f.value.at);
    }
  }

  /** Completion is suppressed exactly when, at top level, the nearest PGML or PGText block is complete. */
  lemma SuppressedExactly(isTop: bool, req: Request, tables: Tables)
    ensures Respond(isTop, req, tables).Suppressed? <==> isTop && InCompleteBlockContext(req.chain)
  {
    InCompleteBlockAgrees(req.chain);
  }

  /** The arrow snippets are the answer exactly when, at top level and not suppressed, their context holds. */
  lemma ArrowExactly(isTop: bool, req: Request, tables: Tables)
    ensures Respond(isTop, req, tables).Direct? <==>
              isTop && !InCompleteBlockContext(req.chain) && ArrowContext(req)
  {
    InCompleteBlockAgrees(req.chain);
    ArrowAgrees(req);
  }

  /** The two image snippets, as literal options. */
  lemma ImageSnippetsAre()
    ensures Snippets(ImageNames, Interface) ==
              [Completion("BEGIN_LATEX_IMAGE", Interface, Some(99), Some(Template("LATEX_IMAGE"))),
               Completion("BEGIN_TIKZ", Interface, Some(98), Some(Template("TIKZ")))]
  {
    var r := Snippets(ImageNames, Interface);
    assert r[0] == Snippet("LATEX_IMAGE", Interface, 0);
    assert r[1] == Snippet("TIKZ", Interface, 1);
    assert "BEGIN_" + "LATEX_IMAGE" == "BEGIN_LATEX_IMAGE";
    assert "BEGIN_" + "TIKZ" == "BEGIN_TIKZ";
    assert r == [r[0], r[1]];
  }

  /** The six block snippets, in their fixed order, with boosts 99 down to 94. */
  lemma BlockSnippetsAre()
    ensures var r := Snippets(BlockNames, Type);
      && [r[0].text, r[1].text, r[2].text, r[3].text, r[4].text, r[5].text] ==
           ["BEGIN_PGML", "BEGIN_PGML_HINT", "BEGIN_PGML_SOLUTION", "BEGIN_TEXT", "BEGIN_HINT", "BEGIN_SOLUTION"]
      && [r[0].boost, r[1].boost, r[2].boost, r[3].boost, r[4].boost, r[5].boost] ==
           [Some(99), Some(98), Some(97), Some(96), Some(95), Some(94)]
      && forall i :: 0 <= i < |r| ==> r[i].kind == Type
  {
    assert "BEGIN_" + "PGML" == "BEGIN_PGML";
    assert "BEGIN_" + "PGML_HINT" == "BEGIN_PGML_HINT";
    assert "BEGIN_" + "PGML_SOLUTION" == "BEGIN_PGML_SOLUTION";
    assert "BEGIN_" + "TEXT" == "BEGIN_TEXT";
    assert "BEGIN_" + "HINT" == "BEGIN_HINT";
    assert "BEGIN_" + "SOLUTION" == "BEGIN_SOLUTION";
  }

  /** The arrow answer is the two image snippets, ranked, starting at the word before the cursor or at the cursor. */
  lemma ArrowAnswer(isTop: bool, req: Request, tables: Tables)
    requires Respond(isTop, req, tables).Direct?
    ensures var a := Respond(isTop, req, tables);
      && a.from == (if req.wordFrom.Some? then req.wordFrom.value else req.pos)
      && a.options == [Completion("BEGIN_LATEX_IMAGE", Interface, Some(99), Some(Template("LATEX_IMAGE"))),
                       Completion("BEGIN_TIKZ", Interface, Some(98), Some(Template("TIKZ")))]
  {
    ImageSnippetsAre();
  }

  /**
   Unless completion is suppressed, text ending in `$` and word characters is answered
   with the variable table alone, each name behind a `$`.
   */
  lemma SigilOverrides(isTop: bool, req: Request, tables: Tables)
    requires exists j :: SigilMatchAt(req.before, j)
    ensures var a := Respond(isTop, req, tables);
      || a.Suppressed?
      || (&& a.Listed?
          && |a.options| == |tables.variables|
          && forall i :: 0 <= i < |a.options| ==>
               a.options[i] == Completion("$" + tables.variables[i], Variable, None, None))
  {
    SigilMatchIff(req.before);
    SigilExcludesArrow(req.before);
  }

  /**
   `options` is an accumulated list: the six block snippets, in order, if
   `withBlocks`, followed by `operators` as plain options, unchanged, if `withOperators`.
   */
  ghost predicate AccumulatedShape(options: seq<Completion>, withBlocks: bool, operators: seq<string>, withOperators: bool) {
    var nb := if withBlocks then |BlockNames| else 0;
    var no := if withOperators then |operators| else 0;
    && |options| == nb + no
    && (forall i :: 0 <= i < nb ==>
          && options[i].text == "BEGIN_" + BlockNames[i]
          && options[i].kind == Type
          && options[i].boost == Some(TopBoost - i)
          && options[i].template == Some("BEGIN_" + BlockNames[i] + "\n${}\nEND_" + BlockNames[i]))
    && (forall i :: 0 <= i < no ==> options[nb + i] == Completion(operators[i], Variable, None, None))
  }

  /** Joining the block snippets and the operator options gives the accumulated shape. */
  lemma JoinedShape(withBlocks: bool, operators: seq<string>, withOperators: bool)
    ensures AccumulatedShape((if withBlocks then Snippets(BlockNames, Type) else []) +
                             (if withOperators then OperatorOptions(operators) else []),
                             withBlocks, operators, withOperators)
  {
    var r := (if withBlocks then Snippets(BlockNames, Type) else []) +
             (if withOperators then OperatorOptions(operators) else []);
    var nb := if withBlocks then |BlockNames| else 0;
    assert forall i :: 0 <= i < nb ==> r[i] == Snippet(BlockNames[i], Type, i);
  }

  /**
   Otherwise the list holds the six block snippets, in order, when their context
   holds, followed by the operator names, unchanged, when theirs does.
   */
  lemma AccumulatedOptions(isTop: bool, req: Request, tables: Tables)
    requires !exists j :: SigilMatchAt(req.before, j)
    requires Respond(isTop, req, tables).Listed?
    ensures AccumulatedShape(Respond(isTop, req, tables).options, BlockContext(isTop, req),
                             tables.operators, OperatorContext(req))
  {
    assert Respond(isTop, req, tables).options == Accumulated(isTop, req, tables) by {
      SigilMatchIff(req.before);
    }
    BlocksAgree(isTop, req);
    OperatorsAgree(req);
    JoinedShape(BlocksApply(isTop, req), tables.operators, OperatorsApply(req));
  }

  /** Outside the top-level grammar no snippet is ever offered. */
  lemma NestedGrammarHasNoSnippets(req: Request, tables: Tables)
    ensures var a := Respond(false, req, tables);
      a.Listed? && forall i :: 0 <= i < |a.options| ==> a.options[i].template.None?
  {
  }

  /** Snippets are ranked by strictly decreasing boost, and each template closes the block its label opens. */
  lemma SnippetsRanked(names: seq<string>, kind: Kind)
    ensures var r := Snippets(names, kind);
      && |r| == |names|
      && (forall i, j :: 0 <= i < j < |r| ==> r[j].boost.value < r[i].boost.value)
      && forall i :: 0 <= i < |r| ==>
           && r[i].text[..6] == "BEGIN_"
           && r[i].template == Some(r[i].text + "\n${}\nEND_" + r[i].text[6..])
  {
    var r := Snippets(names, kind);
    forall i | 0 <= i < |r|
      ensures r[i].text[..6] == "BEGIN_" && r[i].text[6..] == names[i]
    {
      assert r[i].text == "BEGIN_" + names[i];
    }
  }

  /** Distinct names give snippets with distinct labels. */
  lemma SnippetLabelsDistinct(names: seq<string>, kind: Kind)
    requires forall i, j :: 0 <= i < j < |names| ==> names[i] != names[j]
    ensures var r := Snippets(names, kind);
      forall i, j :: 0 <= i < j < |r| ==> r[i].text != r[j].text
  {
    var r := Snippets(names, kind);
    forall i, j | 0 <= i < j < |r|
      ensures r[i].text != r[j].text
    {
      assert r[i].text[6..] == names[i];
      assert r[j].text[6..] == names[j];
    }
  }

  // Concrete requests.

  /** A bare method call at top level, cursor right after `->`: the two image snippets. */
  lemma ArrowAfterMethodCall(tables: Tables)
    ensures var chain := [Node("ArrowOperator", None, None, false),
                          Node("MethodInvocation", Some("ArrowOperator"), Some(6), false),
                          Node("ExpressionStatement", Some("MethodInvocation"), None, false),
                          Node("Program", Some("ExpressionStatement"), None, true)];
      var a := Respond(true, Request(6, false, "$img->", None, chain), tables);
      a == Direct(6, [Completion("BEGIN_LATEX_IMAGE", Interface, Some(99), Some(Template("LATEX_IMAGE"))),
                      Completion("BEGIN_TIKZ", Interface, Some(98), Some(Template("TIKZ")))])
  {
    var chain := [Node("ArrowOperator", None, None, false),
                  Node("MethodInvocation", Some("ArrowOperator"), Some(6), false),
                  Node("ExpressionStatement", Some("MethodInvocation"), None, false),
                  Node("Program", Some("ExpressionStatement"), None, true)];
    var req := Request(6, false, "$img->", None, chain);
    assert ArrowMatchAt(req.before, 4);
    assert NearestIs(chain, MethodInvocation, 1);
    assert ArrowContext(req);
    assert forall m :: 0 <= m < |chain| ==> !EmbeddedBlocks.Has(chain[m].name);
    ArrowExactly(true, req, tables);
    ArrowAnswer(true, req, tables);
  }

  /** Inside a complete PGML block at top level nothing is offered, even after `$`. */
  lemma SuppressedInPgmlBlock(tables: Tables)
    ensures var chain := [Node("PGMLBlock", Some("EndPG"), None, false),
                          Node("Program", Some("PGMLBlock"), None, true)];
      Respond(true, Request(0, true, "$", None, chain), tables) == Suppressed
  {
  }

  /** The same block still being typed (its last child is the error node) does not suppress. */
  lemma IncompletePgmlBlockDoesNotSuppress(tables: Tables)
    ensures var chain := [Node("PGMLBlock", Some(ErrorNodeName), None, false),
                          Node("Program", Some("PGMLBlock"), None, true)];
      Respond(true, Request(1, true, "$", None, chain), tables) == Listed(VariableOptions(tables.variables))
  {
  }

  /** An empty top-level line with an explicit request: the six block snippets and nothing else. */
  lemma BlocksOnEmptyLine(tables: Tables)
    ensures Respond(true, Request(0, true, "", None, [Node("Program", None, None, true)]), tables) ==
              Listed(Snippets(BlockNames, Type))
  {
  }
}
