/**
  Inference and substitution as the engine runs them: maps and lists updated in place while a
  request is walked. Each method is proved to do what BindingTemplates says.
*/
module Bindings {
  import opened Common
  import opened Text
  import opened Json
  import opened Trajectory
  import opened BindingProducers
  import opened BindingTokens
  import BindingTemplates

  type Names = BindingTemplates.Names
  type Request = BindingTemplates.Request

  /** The state a trajectory carries: assigned names, and the records of the action being rewritten. */
  class Binder {
    const producers: map<string, Producer>
    var names: map<Producer, string>
    var byName: map<string, Producer>
    var found: seq<Binding>

    function View(): Names
      reads this
    {
      BindingTemplates.Names(names, byName, found)
    }

    constructor (producers: map<string, Producer>)
      ensures this.producers == producers && View() == BindingTemplates.Names(map[], map[], [])
    {
      this.producers := producers;
      names, byName, found := map[], map[], [];
    }

    /** The name of a producer, made from its response key and step, and numbered when it is taken. */
    method NameFor(p: Producer) returns (name: string)
      modifies this`names, this`byName
      ensures (View(), name) == BindingTemplates.NameFor(old(View()), p)
    {
      hide BindingTemplates.Base;
      if p in names { return names[p]; }
      var base := BindingTemplates.Base(p);
      name := base;
      var n := 1;
      while name in byName
        invariant byName == old(byName) && names == old(names)
        invariant n >= 1 && name == BindingTemplates.Candidate(base, n)
        invariant forall m :: 1 <= m < n ==> BindingTemplates.Candidate(base, m) in byName
        invariant BindingTemplates.FreshNumber(base, byName, n) == BindingTemplates.FreshNumber(base, byName, 1)
        decreases |byName| + 1 - n
      {
        BindingTemplates.TakenFit(base, byName, n);
        n := n + 1;
        name := base + "_" + NatText(n);
      }
      assert BindingTemplates.FreshNumber(base, byName, n) == n;
      assert name == BindingTemplates.Candidate(base, BindingTemplates.FreshNumber(base, byName, 1));
      names := names[p := name];
      byName := byName[name := p];
    }

    /** Note one more site for a name. */
    method NoteSite(name: string, p: Producer, into: string)
      modifies this`found
      ensures found == BindingTemplates.AddSite(old(found), name, p, into)
    {
      var k := 0;
      while k < |found| && found[k].name != name
        invariant k <= |found| && forall j :: 0 <= j < k ==> found[j].name != name
      {
        k := k + 1;
      }
      FirstNamed(found, name, k);
      if k == |found| {
        found := found + [Binding(name, p.step, p.path, [into])];
      } else if into !in found[k].into {
        found := found[k := found[k].(into := found[k].into + [into])];
      }
    }

    method Bind(value: string, into: string, urlSafe: bool) returns (name: Option<string>)
      modifies this
      ensures (View(), name) == BindingTemplates.Bind(old(View()), producers, value, into, urlSafe)
    {
      hide BindingTemplates.AddSite, BindingTemplates.NameFor;
      var reused := BindingTemplates.WholeToken(value);
      if reused.Some? {
        if reused.value !in byName { return None; }
        NoteSite(reused.value, byName[reused.value], into);
        return reused;
      }
      if value !in producers { return None; }
      if urlSafe && !UrlSafe(value) { return None; }
      var given := NameFor(producers[value]);
      NoteSite(given, producers[value], into);
      name := Some(given);
    }

    method TemplatePath(raw: string) returns (path: string)
      modifies this
      ensures (View(), path) == BindingTemplates.TemplatePath(old(View()), producers, raw)
    {
      hide BindingTemplates.Bind, BindingTemplates.BindPieces, BindingTemplates.PathPieces, BindingTemplates.AnyToken;
      var pieces := BindingTemplates.PathPieces(raw);
      ghost var all := BindingTemplates.BindPieces(View(), producers, pieces);
      var parts: seq<BindingTemplates.Part>, changed, i := [], false, 0;
      NoTokenYet();
      assert pieces[0..] == pieces && [] + all.1 == all.1;
      while i < |pieces|
        invariant 0 <= i <= |pieces|
        invariant changed <==> BindingTemplates.AnyToken(parts)
        invariant Continues(all, parts, BindingTemplates.BindPieces(View(), producers, pieces[i..]))
      {
        PiecesFrom(View(), producers, pieces, i);
        var piece := pieces[i];
        var part := BindingTemplates.Plain(piece);
        if piece.Slot? && piece.text != [] {
          var name := Bind(piece.text, piece.into, true);
          if name.Some? {
            part := BindingTemplates.Tok(name.value, piece.text);
            changed := true;
          }
        }
        AnyTokenMore(parts, part);
        ghost var rest := BindingTemplates.BindPieces(View(), producers, pieces[i + 1..]).1;
        assert parts + ([part] + rest) == parts + [part] + rest;
        parts := parts + [part];
        i := i + 1;
      }
      NoPiecesLeft(View(), producers, pieces);
      assert parts + [] == parts;
      path := if changed then BindingTemplates.Rendered(parts) else raw;
    }

    method TemplateHeaders(headers: Json) returns (out: Json)
      modifies this
      ensures (View(), out) == BindingTemplates.TemplateHeaders(old(View()), producers, headers)
    {
      hide BindingTemplates.Bind, BindingTemplates.TemplateHeaderMembers;
      if !headers.Obj? { return headers; }
      var members, done, i := headers.members, [], 0;
      ghost var all := BindingTemplates.TemplateHeaderMembers(View(), producers, members);
      assert members[0..] == members && [] + all.1 == all.1;
      while i < |members|
        invariant 0 <= i <= |members|
        invariant Continues(all, done, BindingTemplates.TemplateHeaderMembers(View(), producers, members[i..]))
      {
        HeadersFrom(View(), producers, members, i);
        var m := members[i];
        if m.value.Str? {
          var name := Bind(m.value.text, "headers." + m.key, false);
          done := done + [Member(m.key, Str(if name.None? then m.value.text else TokenText(name.value)))];
        } else {
          done := done + [m];
        }
        i := i + 1;
      }
      NoHeadersLeft(View(), producers, members);
      assert done + [] == done;
      out := Obj(done);
    }

    method TemplateBody(node: Json, path: string) returns (out: Json)
      modifies this
      ensures (View(), out) == BindingTemplates.TemplateBody(old(View()), producers, node, path)
      decreases node
    {
      hide BindingTemplates.Bind, BindingTemplates.IsSecretRef, BindingTemplates.TemplateItems, BindingTemplates.TemplateMembers;
      match node {
        case Str(text) =>
          var name := Bind(text, path, false);
          return Str(if name.None? then text else TokenText(name.value));
        case Arr(items) =>
          var done, i := [], 0;
          ghost var all := BindingTemplates.TemplateItems(View(), producers, node, path, 0);
          assert [] + all.1 == all.1;
          while i < |items|
            invariant 0 <= i <= |items|
            invariant Continues(all, done, BindingTemplates.TemplateItems(View(), producers, node, path, i))
          {
            ItemsFrom(View(), producers, node, path, i);
            var item := TemplateBody(items[i], path + "[" + NatText(i) + "]");
            done := done + [item];
            i := i + 1;
          }
          ItemsFrom(View(), producers, node, path, i);
          assert done + [] == done;
          return Arr(done);
        case Obj(members) =>
          if BindingTemplates.IsSecretRef(node) { return node; }
          var done, i := [], 0;
          ghost var all := BindingTemplates.TemplateMembers(View(), producers, node, path, 0);
          assert [] + all.1 == all.1;
          while i < |members|
            invariant 0 <= i <= |members|
            invariant Continues(all, done, BindingTemplates.TemplateMembers(View(), producers, node, path, i))
          {
            MembersFrom(View(), producers, node, path, i);
            var value := TemplateBody(members[i].value, path + "." + members[i].key);
            done := done + [Member(members[i].key, value)];
            i := i + 1;
          }
          MembersFrom(View(), producers, node, path, i);
          assert done + [] == done;
          return Obj(done);
        case _ => return node;
      }
    }

    /** Rewrite a request; the records of what was bound are left in `found`. */
    method InferBindings(request: Request) returns (out: Request)
      modifies this
      ensures (out, View()) == BindingTemplates.InferBindings(request, producers, old(View()))
    {
      hide BindingTemplates.TemplatePath, BindingTemplates.TemplateHeaders, BindingTemplates.TemplateBody;
      found := [];
      if |producers| == 0 && |byName| == 0 { return request; }
      var path, headers, body := request.path, request.headers, request.body;
      if request.path.Some? {
        var t := TemplatePath(request.path.value);
        path := Some(t);
      }
      if request.headers.Some? {
        var h := TemplateHeaders(request.headers.value);
        headers := Some(h);
      }
      if request.body.Some? {
        var b := TemplateBody(request.body.value, "body");
        body := Some(b);
      }
      if found == [] { return request; }
      out := BindingTemplates.Request(path, headers, body);
    }
  }

  /** What is done and what the rest gives make up the whole. */
  ghost predicate Continues<T>(all: (Names, seq<T>), done: seq<T>, rest: (Names, seq<T>)) {
    all.0 == rest.0 && all.1 == done + rest.1
  }

  lemma NoTokenYet()
    ensures !BindingTemplates.AnyToken([])
  {}

  lemma {:induction false} PiecesFrom(st: Names, producers: map<string, Producer>, pieces: seq<BindingTemplates.Piece>, i: nat)
    requires i < |pieces|
    ensures var part := BindingTemplates.BindPiece(st, producers, pieces[i]);
            var rest := BindingTemplates.BindPieces(part.0, producers, pieces[i + 1..]);
            BindingTemplates.BindPieces(st, producers, pieces[i..]) == (rest.0, [part.1] + rest.1)
  {
    assert pieces[i..][1..] == pieces[i + 1..];
  }

  lemma NoPiecesLeft(st: Names, producers: map<string, Producer>, pieces: seq<BindingTemplates.Piece>)
    ensures BindingTemplates.BindPieces(st, producers, pieces[|pieces|..]) == (st, [])
  {}

  lemma {:induction false} HeadersFrom(st: Names, producers: map<string, Producer>, members: seq<Member>, i: nat)
    requires i < |members|
    ensures var m := members[i];
            var one := if m.value.Str? then BindingTemplates.BindText(st, producers, m.value.text, "headers." + m.key) else (st, "");
            var rest := BindingTemplates.TemplateHeaderMembers(one.0, producers, members[i + 1..]);
            BindingTemplates.TemplateHeaderMembers(st, producers, members[i..])
            == (rest.0, [if m.value.Str? then Member(m.key, Str(one.1)) else m] + rest.1)
  {
    assert members[i..][1..] == members[i + 1..];
  }

  lemma NoHeadersLeft(st: Names, producers: map<string, Producer>, members: seq<Member>)
    ensures BindingTemplates.TemplateHeaderMembers(st, producers, members[|members|..]) == (st, [])
  {}

  lemma ItemsFrom(st: Names, producers: map<string, Producer>, node: Json, path: string, i: nat)
    requires node.Arr? && i <= |node.items|
    ensures BindingTemplates.TemplateItems(st, producers, node, path, i) ==
            if i == |node.items| then (st, [])
            else
              var item := BindingTemplates.TemplateBody(st, producers, node.items[i], path + "[" + NatText(i) + "]");
              var rest := BindingTemplates.TemplateItems(item.0, producers, node, path, i + 1);
              (rest.0, [item.1] + rest.1)
  {}

  lemma MembersFrom(st: Names, producers: map<string, Producer>, node: Json, path: string, i: nat)
    requires node.Obj? && i <= |node.members|
    ensures BindingTemplates.TemplateMembers(st, producers, node, path, i) ==
            if i == |node.members| then (st, [])
            else
              var m := node.members[i];
              var value := BindingTemplates.TemplateBody(st, producers, m.value, path + "." + m.key);
              var rest := BindingTemplates.TemplateMembers(value.0, producers, node, path, i + 1);
              (rest.0, [Member(m.key, value.1)] + rest.1)
  {}

  lemma {:induction false} FirstNamed(found: seq<Binding>, name: string, k: nat)
    requires k <= |found| && (forall j :: 0 <= j < k ==> found[j].name != name) && (k < |found| ==> found[k].name == name)
    ensures BindingTemplates.FoundAt(found, name) == k
  {}

  lemma {:induction false} AnyTokenMore(parts: seq<BindingTemplates.Part>, part: BindingTemplates.Part)
    ensures BindingTemplates.AnyToken(parts + [part]) <==> BindingTemplates.AnyToken(parts) || part.Tok?
  {
    var more := parts + [part];
    assert more[|parts|] == part;
    if BindingTemplates.AnyToken(parts) {
      var k :| 0 <= k < |parts| && parts[k].Tok?;
      assert more[k].Tok?;
    }
  }

  /** Substitution, collecting what it could not do. */
  class Substitution {
    const vars: map<string, string>
    var missing: seq<string>
    var unfit: seq<string>

    constructor (vars: map<string, string>)
      ensures this.vars == vars && missing == [] && unfit == []
    {
      this.vars := vars;
      missing, unfit := [], [];
    }

    /** Replace every token of a text, left to right. */
    method Sub(text: string, url: bool) returns (out: string)
      modifies this
      ensures var scan := Substitute(text, vars, url);
              out == scan.text && missing == old(missing) + scan.missing && unfit == old(unfit) + scan.unfit
    {
      hide TokenAt, UrlSafe, Substitute;
      out := [];
      var i := 0;
      ghost var all := Substitute(text, vars, url);
      assert text[0..] == text;
      while i < |text|
        invariant 0 <= i <= |text|
        invariant all.text == out + Substitute(text[i..], vars, url).text
        invariant old(missing) + all.missing == missing + Substitute(text[i..], vars, url).missing
        invariant old(unfit) + all.unfit == unfit + Substitute(text[i..], vars, url).unfit
        decreases |text| - i
      {
        ScansOn(text, i, vars, url);
        var token := TokenAt(text[i..]);
        if token.None? {
          out := out + [text[i]];
          i := i + 1;
        } else {
          var name, next := token.value.name, i + token.value.length;
          if name !in vars {
            missing := missing + [name];
            out := out + text[i..next];
          } else {
            if url && !UrlSafe(vars[name]) {
              unfit := unfit + [name];
            }
            out := out + vars[name];
          }
          i := next;
        }
      }
      NothingToSubstitute(text[i..], vars, url);
    }

    method Deep(node: Json) returns (out: Json)
      modifies this
      ensures out == BindingTemplates.Deep(node, vars)
      ensures missing == old(missing) + BindingTemplates.MissingIn(node, vars) && unfit == old(unfit)
      decreases node
    {
      hide Substitute, NoOpen, BindingTemplates.IsSecretRef;
      match node {
        case Str(text) =>
          if NoOpen(text) { return node; }
          NeverUnfit(text, vars);
          var t := Sub(text, false);
          return Str(t);
        case Arr(items) =>
          var done: seq<Json>, i := [], 0;
          while i < |items|
            invariant 0 <= i <= |items| && |done| == i && unfit == old(unfit)
            invariant forall k :: 0 <= k < i ==> done[k] == BindingTemplates.Deep(items[k], vars)
            invariant old(missing) + BindingTemplates.MissingInItems(node, vars, 0) == missing + BindingTemplates.MissingInItems(node, vars, i)
          {
            var item := Deep(items[i]);
            done := done + [item];
            i := i + 1;
          }
          assert BindingTemplates.Deep(node, vars).items == done;
          return Arr(done);
        case Obj(members) =>
          if BindingTemplates.IsSecretRef(node) { return node; }
          var done: seq<Member>, i := [], 0;
          while i < |members|
            invariant 0 <= i <= |members| && |done| == i && unfit == old(unfit)
            invariant forall k :: 0 <= k < i ==> done[k] == Member(members[k].key, BindingTemplates.Deep(members[k].value, vars))
            invariant old(missing) + BindingTemplates.MissingInMembers(node, vars, 0) == missing + BindingTemplates.MissingInMembers(node, vars, i)
          {
            var value := Deep(members[i].value);
            done := done + [Member(members[i].key, value)];
            i := i + 1;
          }
          assert BindingTemplates.Deep(node, vars).members == done;
          return Obj(done);
        case _ => return node;
      }
    }

    method ApplyBindings(request: Request) returns (out: Request)
      requires missing == [] && unfit == []
      modifies this
      ensures BindingTemplates.Applied(out, missing, unfit) == BindingTemplates.ApplyBindings(request, vars)
    {
      hide Substitute, BindingTemplates.Deep, BindingTemplates.MissingIn;
      out := request;
      if request.path.Some? {
        var path := Sub(request.path.value, true);
        out := out.(path := Some(path));
      }
      if request.headers.Some? {
        var headers := Deep(request.headers.value);
        out := out.(headers := Some(headers));
      }
      if request.body.Some? {
        var body := Deep(request.body.value);
        out := out.(body := Some(body));
      }
    }
  }

  /** One step of a scan, from position i. */
  lemma {:induction false} ScansOn(text: string, i: nat, vars: map<string, string>, url: bool)
    requires i < |text|
    ensures var token := TokenAt(text[i..]);
            var here := Substitute(text[i..], vars, url);
            if token.None? then
              var rest := Substitute(text[i + 1..], vars, url);
              here == Scan([text[i]] + rest.text, rest.missing, rest.unfit)
            else
              var name, next := token.value.name, i + token.value.length;
              var rest := Substitute(text[next..], vars, url);
              if name !in vars then here == Scan(text[i..next] + rest.text, [name] + rest.missing, rest.unfit)
              else here == Scan(vars[name] + rest.text, rest.missing, (if url && !UrlSafe(vars[name]) then [name] else []) + rest.unfit)
  {
    hide TokenAt, UrlSafe;
    assert text[i..][1..] == text[i + 1..];
    var token := TokenAt(text[i..]);
    if token.Some? {
      assert text[i..][token.value.length..] == text[i + token.value.length..];
      assert text[i..][..token.value.length] == text[i..i + token.value.length];
    }
  }

  /** Nothing outside a URL is unfit. */
  lemma {:induction false} NeverUnfit(text: string, vars: map<string, string>)
    ensures Substitute(text, vars, false).unfit == []
    decreases |text|
  {
    hide TokenAt;
    if text != [] {
      var token := TokenAt(text);
      NeverUnfit(if token.None? then text[1..] else text[token.value.length..], vars);
    }
  }
}
