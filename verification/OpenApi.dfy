/** The resolver as it runs: a shared node counter, and a list of reports it appends to. */
module OpenApi {
  import opened Common
  import opened Json
  import opened OpenApiRefs
  import OpenApiTheorems

  class Resolver {
    const ctx: Context
    var n: nat
    var diagnostics: seq<Target>

    constructor (ctx: Context)
      ensures this.ctx == ctx && n == 0 && diagnostics == []
    {
      this.ctx := ctx;
      n, diagnostics := 0, [];
    }

    /** The counter and the reports after this outcome, or the error it ended in. */
    ghost predicate Follows<T>(before: seq<Target>, outcome: Outcome<T>, r: Result<T, Error>)
      reads this
    {
      match outcome
      case Done(value, m, cycles) => r == Ok(value) && n == m && diagnostics == before + cycles
      case Failed(error) => r == Err(error)
    }

    method ResolveNode(docPath: string, node: Json, stack: set<Target>) returns (r: Result<Json, Error>)
      requires InReach(ctx, docPath, node, stack)
      modifies this
      ensures Follows(old(diagnostics), Resolve(ctx, docPath, node, stack, old(n)), r)
      decreases |Universe(ctx) - stack|, node, 2
    {
      hide Universe, AllRefs, Lookup, RefTarget, InReach;
      PartsInReach(ctx, docPath, node, stack);
      n := n + 1;
      if n - 1 > ctx.maxNodes { return Err(TooManyNodes); }
      match node {
        case Arr(items) =>
          var each := ResolveEach(docPath, node, stack);
          if each.Err? { return Err(each.error); }
          return Ok(Arr(each.value));
        case Obj(members) =>
          if RefOf(node).Some? {
            r := Expand(docPath, node, stack);
            return;
          }
          var out := ResolveInto(docPath, node, stack, []);
          if out.Err? { return Err(out.error); }
          return Ok(Obj(out.value));
        case _ => return Ok(node);
      }
    }

    method ResolveEach(docPath: string, node: Json, stack: set<Target>) returns (r: Result<seq<Json>, Error>)
      requires InReach(ctx, docPath, node, stack) && node.Arr?
      modifies this
      ensures Follows(old(diagnostics), ResolveItems(ctx, docPath, node, stack, old(n), 0), r)
      decreases |Universe(ctx) - stack|, node, 0
    {
      hide Universe, AllRefs, Lookup, RefTarget, InReach;
      PartsInReach(ctx, docPath, node, stack);
      var done: seq<Json>, i := [], 0;
      ghost var whole := ResolveItems(ctx, docPath, node, stack, n, 0);
      while i < |node.items|
        invariant 0 <= i <= |node.items|
        invariant InReach(ctx, docPath, node, stack)
        invariant var rest := ResolveItems(ctx, docPath, node, stack, n, i);
                  if rest.Failed? then whole == Failed(rest.error)
                  else whole.Done? && whole.value == done + rest.value && whole.n == rest.n
                       && old(diagnostics) + whole.cycles == diagnostics + rest.cycles
      {
        var item := ResolveNode(docPath, node.items[i], stack);
        if item.Err? { return Err(item.error); }
        done := done + [item.value];
        i := i + 1;
      }
      assert done + [] == done;
      r := Ok(done);
    }

    /** Expand a reference, unless it is already being expanded. */
    method Expand(docPath: string, node: Json, stack: set<Target>) returns (r: Result<Json, Error>)
      requires InReach(ctx, docPath, node, stack) && node.Obj? && RefOf(node).Some?
      modifies this
      ensures Follows(old(diagnostics), ResolveRef(ctx, docPath, node, stack, old(n)), r)
      decreases |Universe(ctx) - stack|, node, 1
    {
      hide Universe, AllRefs, RefTarget, InReach, RefsIn, Resolve, ResolveMembers, PointerInto;
      OpenApiTheorems.RefInReach(ctx, docPath, node, stack);
      var ref := RefOf(node).value;
      var t := RefTarget(ctx, docPath, ref);
      if t.Err? { return Err(t.error); }
      if t.value in stack {
        diagnostics := diagnostics + [t.value];
        return Ok(Obj([Member("$ref_cycle", Str(ref))]));
      }
      var target := ReadPointer(ctx.docs[t.value.doc], t.value.pointer, ctx.decode);
      if target.Err? { return Err(target.error); }
      StackGrows(Universe(ctx), stack, t.value);
      var expanded := ResolveNode(t.value.doc, target.value, stack + {t.value});
      if expanded.Err? || !expanded.value.Obj? { return expanded; }
      var out := ResolveInto(docPath, node, stack, expanded.value.members);
      if out.Err? { return Err(out.error); }
      r := Ok(Obj(out.value));
    }

    /** Resolve an object's members into others; a string `$ref` is left aside. */
    method ResolveInto(docPath: string, node: Json, stack: set<Target>, into: seq<Member>) returns (r: Result<seq<Member>, Error>)
      requires InReach(ctx, docPath, node, stack) && node.Obj?
      modifies this
      ensures Follows(old(diagnostics), ResolveMembers(ctx, docPath, node, stack, old(n), 0, into), r)
      decreases |Universe(ctx) - stack|, node, 0
    {
      hide Universe, AllRefs, Lookup, RefTarget, InReach, SetMember;
      PartsInReach(ctx, docPath, node, stack);
      var members, out, i := node.members, into, 0;
      ghost var whole := ResolveMembers(ctx, docPath, node, stack, n, 0, into);
      while i < |members|
        invariant 0 <= i <= |members|
        invariant InReach(ctx, docPath, node, stack)
        invariant var rest := ResolveMembers(ctx, docPath, node, stack, n, i, out);
                  if rest.Failed? then whole == Failed(rest.error)
                  else whole.Done? && whole.value == rest.value && whole.n == rest.n
                       && old(diagnostics) + whole.cycles == diagnostics + rest.cycles
      {
        if !(members[i].key == "$ref" && RefOf(node).Some?) {
          var value := ResolveNode(docPath, members[i].value, stack);
          if value.Err? { return Err(value.error); }
          out := SetMember(out, members[i].key, value.value);
        }
        i := i + 1;
      }
      r := Ok(out);
    }
  }

  lemma PartsInReach(ctx: Context, docPath: string, node: Json, stack: set<Target>)
    requires InReach(ctx, docPath, node, stack)
    ensures node.Arr? ==> forall i :: 0 <= i < |node.items| ==> InReach(ctx, docPath, node.items[i], stack)
    ensures node.Obj? ==> forall i :: 0 <= i < |node.members| ==> InReach(ctx, docPath, node.members[i].value, stack)
  {}
}
