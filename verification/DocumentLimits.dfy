/** The document check: an explicit stack that bounds the depth and the node count of a JSON tree. */
module DocumentLimits {
  import opened Wrappers

  datatype Json =
    | Scalar(text: string)
    | Array(items: seq<Json>)
    | Object(keys: seq<string>, values: seq<Json>)

  datatype Limits = Limits(jsonBytes: nat, markdownBytes: nat, nodes: nat, depth: nat)

  const DOCUMENT_LIMITS := Limits(134217728, 134217728, 1000000, 128)

  datatype DocumentFault = InvalidDocument | MarkdownTooLong | DocumentTooDeep | TooManyNodes | JsonTooLong

  // A value still to be visited, and the depth it stands at.
  datatype Pending = Pending(value: Json, depth: nat)

  /* ---------- The recursive reading ---------- */

  function Size(v: Json): nat
    decreases v, 0
  {
    match v
    case Scalar(_) => 1
    case Array(items) => 1 + SizeOfAll(items)
    case Object(_, values) => 1 + SizeOfAll(values)
  }

  function SizeOfAll(vs: seq<Json>): nat
    decreases vs, 1
  {
    if vs == [] then 0 else Size(vs[0]) + SizeOfAll(vs[1..])
  }

  function Depth(v: Json): nat
    decreases v, 0
  {
    match v
    case Scalar(_) => 1
    case Array(items) => 1 + DepthOfAll(items)
    case Object(_, values) => 1 + DepthOfAll(values)
  }

  function DepthOfAll(vs: seq<Json>): nat
    decreases vs, 1
  {
    if vs == [] then 0 else Max(Depth(vs[0]), DepthOfAll(vs[1..]))
  }

  function Max(a: nat, b: nat): nat { if a < b then b else a }

  function Children(v: Json): seq<Json> {
    match v
    case Scalar(_) => []
    case Array(items) => items
    case Object(_, values) => values
  }

  // A document is an object within every limit.
  ghost predicate FitsLimits(document: Json, markdownBytes: nat, encodedBytes: nat, limits: Limits) {
    && document.Object?
    && markdownBytes <= limits.markdownBytes && encodedBytes <= limits.jsonBytes
    && Depth(document) <= limits.depth && Size(document) <= limits.nodes
  }

  /* ---------- The stack ---------- */

  function Push(vs: seq<Json>, depth: nat): (stack: seq<Pending>)
    ensures |stack| == |vs| && forall i :: 0 <= i < |vs| ==> stack[i] == Pending(vs[i], depth)
  {
    if vs == [] then [] else [Pending(vs[0], depth)] + Push(vs[1..], depth)
  }

  // Nodes in the subtrees on the stack.
  function StackSize(stack: seq<Pending>): nat {
    if stack == [] then 0 else StackSize(stack[..|stack| - 1]) + Size(stack[|stack| - 1].value)
  }

  // No subtree on the stack reaches below the limit.
  ghost predicate StackFits(stack: seq<Pending>, limit: nat) {
    forall p :: p in stack ==> p.depth + Depth(p.value) <= limit + 1
  }

  lemma {:induction false} StackSizeConcat(a: seq<Pending>, b: seq<Pending>)
    ensures StackSize(a + b) == StackSize(a) + StackSize(b)
  {
    if b == [] {
      assert a + b == a;
    } else {
      StackSizeConcat(a, b[..|b| - 1]);
      assert (a + b)[..|a + b| - 1] == a + b[..|b| - 1];
    }
  }

  lemma {:induction false} StackSizeOfPushed(vs: seq<Json>, depth: nat)
    ensures StackSize(Push(vs, depth)) == SizeOfAll(vs)
  {
    if vs != [] {
      StackSizeOfPushed(vs[1..], depth);
      var one := [Pending(vs[0], depth)];
      StackSizeConcat(one, Push(vs[1..], depth));
      assert one[..0] == [];
      assert StackSize(one) == Size(vs[0]);
    }
  }

  lemma {:induction false} PushedFits(vs: seq<Json>, depth: nat, limit: nat)
    requires vs != [] || depth <= limit + 1
    ensures StackFits(Push(vs, depth), limit) <==> depth + DepthOfAll(vs) <= limit + 1
  {
    if vs != [] {
      var pushed := Push(vs, depth);
      assert pushed == [Pending(vs[0], depth)] + Push(vs[1..], depth);
      assert pushed[0] in pushed;
      if vs[1..] != [] {
        PushedFits(vs[1..], depth, limit);
      }
    }
  }

  lemma SizeIsPositive(v: Json)
    ensures Size(v) >= 1 && Depth(v) >= 1
  {
  }

  // Visiting a value replaces it by its children: same nodes but one, same reach.
  lemma VisitStep(rest: seq<Pending>, top: Pending, limit: nat)
    requires top.depth <= limit
    ensures var next := rest + Push(Children(top.value), top.depth + 1);
      && StackSize(rest + [top]) == StackSize(next) + 1
      && (StackFits(rest + [top], limit) <==> StackFits(next, limit))
  {
    var pushed := Push(Children(top.value), top.depth + 1);
    VisitSize(rest, top, pushed);
    VisitReach(top, pushed, limit);
    StackFitsConcat(rest, [top], limit);
    StackFitsConcat(rest, pushed, limit);
  }

  lemma VisitSize(rest: seq<Pending>, top: Pending, pushed: seq<Pending>)
    requires pushed == Push(Children(top.value), top.depth + 1)
    ensures StackSize(rest + [top]) == StackSize(rest + pushed) + 1
  {
    hide Push;
    StackSizeConcat(rest, pushed);
    StackSizeOfPushed(Children(top.value), top.depth + 1);
    assert (rest + [top])[..|rest|] == rest;
  }

  lemma VisitReach(top: Pending, pushed: seq<Pending>, limit: nat)
    requires top.depth <= limit && pushed == Push(Children(top.value), top.depth + 1)
    ensures StackFits([top], limit) <==> StackFits(pushed, limit)
  {
    hide Push;
    PushedFits(Children(top.value), top.depth + 1, limit);
    assert top in [top];
  }

  lemma StackFitsConcat(a: seq<Pending>, b: seq<Pending>, limit: nat)
    ensures StackFits(a + b, limit) <==> StackFits(a, limit) && StackFits(b, limit)
  {
    assert forall p :: p in a + b <==> p in a || p in b;
  }

  /**
  `validate_document_with_limits`: accepts exactly the documents within the limits of the
  recursive reading, whatever order the stack visits them in, and blames a limit that is exceeded.
  */
  method ValidateDocument(document: Json, markdownBytes: nat, encodedBytes: nat, limits: Limits)
    returns (r: Result<(), DocumentFault>)
    ensures r.Ok? <==> FitsLimits(document, markdownBytes, encodedBytes, limits)
    ensures r == Err(DocumentTooDeep) ==> Depth(document) > limits.depth
    ensures r == Err(TooManyNodes) ==> Size(document) > limits.nodes
    ensures r == Err(InvalidDocument) <==> !document.Object?
  {
    if !document.Object? {
      return Err(InvalidDocument);
    }
    if markdownBytes > limits.markdownBytes {
      return Err(MarkdownTooLong);
    }
    var seen := 0;
    var stack := [Pending(document, 1)];
    assert stack[..0] == [];
    assert stack[0] in stack;
    while stack != []
      invariant seen + StackSize(stack) == Size(document) && seen <= limits.nodes
      invariant StackFits(stack, limits.depth) <==> Depth(document) <= limits.depth
      decreases StackSize(stack)
    {
      var top := stack[|stack| - 1];
      var rest := stack[..|stack| - 1];
      assert stack == rest + [top];
      SizeIsPositive(top.value);
      if top.depth > limits.depth {
        assert top in stack;
        return Err(DocumentTooDeep);
      }
      seen := seen + 1;
      if seen > limits.nodes {
        return Err(TooManyNodes);
      }
      VisitStep(rest, top, limits.depth);
      stack := rest + Push(Children(top.value), top.depth + 1);
    }
    if encodedBytes > limits.jsonBytes {
      return Err(JsonTooLong);
    }
    return Ok(());
  }
}
