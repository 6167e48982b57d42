/**
 * platform/okf/generate_quota_enforcement.py, _gateway_identity_predicate_format: the loop that nests one
 * conditional per path segment, and what the result means.
 */
module QuotaGuard {
  import opened Util
  import opened Cel
  import opened CelText
  import opened CelEval

  const PREFIX := "auth.identity."

  /** Python's `s.split(".")`. */
  function Split(s: string): (r: seq<string>)
    ensures r != [] && Join(".", r) == s
  {
    if s == "" then [""]
    else
      var more := Split(s[1..]);
      if s[0] == '.' then [""] + more
      else
        assert [more[0]] + more[1..] == more;
        [[s[0]] + more[0]] + more[1..]
  }

  // ---------------------------------------------------------------- the specification

  function IdentityPath(segs: seq<string>): Expr {
    if segs == [] then Select(Ident("auth"), "identity")
    else Select(IdentityPath(segs[..|segs| - 1]), segs[|segs| - 1])
  }

  /** The predicate from depth `d` on: one `has` conditional per remaining segment around the comparison. */
  function Guard(segs: seq<string>, d: nat, username: string): Expr
    requires d <= |segs|
    decreases |segs| - d
  {
    if d == |segs| then Rel(Eq, IdentityPath(segs), Str(username))
    else Paren(Cond(Has(IdentityPath(segs[..d]), segs[d]), Guard(segs, d + 1, username), Lit(false)))
  }

  ghost predicate Names(segs: seq<string>) { forall i :: 0 <= i < |segs| ==> Name(segs[i]) }

  lemma {:induction false} PathForm(segs: seq<string>)
    requires Names(segs)
    ensures WellFormed(IdentityPath(segs)) && Level(IdentityPath(segs)) == 5 && Showable(IdentityPath(segs))
  {
    if segs == [] {
      assert Showable(Ident("auth")) && WellFormed(Ident("auth"));
    } else {
      PathForm(segs[..|segs| - 1]);
    }
  }

  lemma {:induction false} GuardForm(segs: seq<string>, d: nat, username: string)
    requires Names(segs) && d <= |segs| && Plain(username)
    ensures var g := Guard(segs, d, username);
            WellFormed(g) && Showable(g) && Level(g) == if d == |segs| then 3 else 6
    decreases |segs| - d
  {
    PathForm(segs);
    if d < |segs| {
      PathForm(segs[..d]);
      GuardForm(segs, d + 1, username);
    }
  }

  // ---------------------------------------------------------------- the loop

  function Prefix(segs: seq<string>): string { PREFIX + Join(".", segs) }

  lemma {:induction false} JoinSnoc(sep: string, init: seq<string>, last: string)
    requires init != []
    ensures Join(sep, init + [last]) == Join(sep, init) + (sep + last)
  {
    if |init| > 1 {
      JoinSnoc(sep, init[1..], last);
      assert (init + [last])[1..] == init[1..] + [last];
      var a, b := init[0] + sep, Join(sep, init[1..]);
      Assoc(a, b, sep + last);
    } else {
      assert (init + [last])[1..] == [last];
      Assoc(init[0], sep, last);
    }
  }

  lemma {:induction false} PathShow(segs: seq<string>)
    requires segs != []
    ensures Show(IdentityPath(segs)) == Prefix(segs)
  {
    var init, last := segs[..|segs| - 1], segs[|segs| - 1];
    assert segs == init + [last];
    if init == [] {
      assert "." + "identity" == ".identity" && "auth" + ".identity" == "auth.identity";
      assert Show(IdentityPath([])) == "auth.identity";
      Assoc("auth.identity", ".", last);
      assert "auth.identity" + "." == PREFIX;
    } else {
      PathShow(init);
      JoinSnoc(".", init, last);
      Assoc(PREFIX, Join(".", init), "." + last);
    }
  }

  lemma GuardShow(segs: seq<string>, d: nat, username: string)
    requires d < |segs|
    ensures Show(Guard(segs, d, username))
         == "(has(" + Prefix(segs[..d + 1]) + ") ? " + Show(Guard(segs, d + 1, username)) + " : false)"
  {
    var path, inner := Show(IdentityPath(segs[..d])), Show(Guard(segs, d + 1, username));
    PathShow(segs[..d + 1]);
    assert segs[..d + 1][..d] == segs[..d];
    assert Prefix(segs[..d + 1]) == path + ("." + segs[d]);
    var h := Has(IdentityPath(segs[..d]), segs[d]);
    assert Show(h) == "has" + ("(" + (path + ("." + (segs[d] + ")"))));
    assert Show(Cond(h, Guard(segs, d + 1, username), Lit(false))) == Show(h) + (" ? " + (inner + (" : " + "false")));
    GuardShape(path, segs[d], inner);
  }

  lemma GuardShape(path: string, seg: string, inner: string)
    ensures "(" + ((("has" + ("(" + (path + ("." + (seg + ")"))))) + (" ? " + (inner + (" : " + "false")))) + ")")
         == "(has(" + (path + ("." + seg)) + ") ? " + inner + " : false)"
  {
    assert "has" + ("(" + (path + ("." + (seg + ")")))) == "has(" + (path + ("." + seg)) + ")";
    var p := path + ("." + seg);
    assert "(" + ((("has(" + p + ")") + (" ? " + (inner + (" : " + "false")))) + ")")
        == "(has(" + p + ") ? " + inner + " : false)";
  }

  lemma LeafShow(segs: seq<string>, username: string)
    requires segs != []
    ensures Show(Guard(segs, |segs|, username)) == Prefix(segs) + " == '" + username + "'"
  {
    PathShow(segs);
    assert Show(Guard(segs, |segs|, username)) == Prefix(segs) + (" == " + ("'" + (username + "'")));
    assert " == " + ("'" + (username + "'")) == " == '" + (username + "'");
    Assoc(Prefix(segs), " == '", username + "'");
    Assoc(Prefix(segs) + " == '", username, "'");
  }

  /** The predicate's text for a property and the ServiceAccount username its one `%s` stands for. */
  method GatewayIdentityPredicate(property: string, username: string) returns (r: Result<string>)
    ensures r.Ok? <==> PREFIX < property
    ensures r.Ok? ==> r.value == Show(Guard(Split(property[|PREFIX|..]), 0, username))
  {
    if !(PREFIX < property) {
      return Err("GATEWAY_IDENTITY_PROPERTY must start with auth.identity.: " + property);
    }
    var segments := Split(property[|PREFIX|..]);
    var expr := property + " == '" + username + "'";
    LeafShow(segments, username);
    assert property == PREFIX + property[|PREFIX|..];
    var depth := |segments|;
    while depth > 0
      invariant 0 <= depth <= |segments|
      invariant expr == Show(Guard(segments, depth, username))
    {
      GuardShow(segments, depth - 1, username);
      expr := "(has(" + (PREFIX + Join(".", segments[..depth])) + ") ? " + expr + " : false)";
      depth := depth - 1;
    }
    return Ok(expr);
  }

  // ---------------------------------------------------------------- meaning

  /** The value a path leads to in an identity tree. */
  function Resolve(tree: Value, segs: seq<string>): Option<Value> {
    if segs == [] then Some(tree)
    else if tree.Map? && segs[0] in tree.m then Resolve(tree.m[segs[0]], segs[1..])
    else None
  }

  /** Every value a further segment is looked up in is a map. */
  predicate MapsAlong(tree: Value, segs: seq<string>) {
    segs == [] || (tree.Map? && (segs[0] in tree.m ==> MapsAlong(tree.m[segs[0]], segs[1..])))
  }

  lemma {:induction false} GuardFrom(segs: seq<string>, d: nat, username: string, env: Env, here: Value)
    requires d <= |segs| && Eval(IdentityPath(segs[..d]), env) == Val(here)
    ensures Eval(Guard(segs, d, username), env)
         == if MapsAlong(here, segs[d..])
            then Val(Bool(Resolve(here, segs[d..]) == Some(Text(username))))
            else Error
    decreases |segs| - d
  {
    if d == |segs| {
      assert segs[..d] == segs && segs[d..] == [];
    } else {
      assert segs[d..][0] == segs[d] && segs[d..][1..] == segs[d + 1..];
      var h, inner := Has(IdentityPath(segs[..d]), segs[d]), Guard(segs, d + 1, username);
      assert Eval(h, env) == if here.Map? then Val(Bool(segs[d] in here.m)) else Error;
      assert Eval(Guard(segs, d, username), env) == Eval(Cond(h, inner, Lit(false)), env);
      if here.Map? && segs[d] in here.m {
        assert segs[..d + 1][..d] == segs[..d];
        assert IdentityPath(segs[..d + 1]) == Select(IdentityPath(segs[..d]), segs[d]);
        GuardFrom(segs, d + 1, username, env, here.m[segs[d]]);
        assert Eval(Guard(segs, d, username), env) == Eval(inner, env);
      } else if here.Map? {
        assert Eval(Lit(false), env) == Val(Bool(false));
        assert Resolve(here, segs[d..]) == None;
      } else {
        assert !MapsAlong(here, segs[d..]);
      }
    }
  }

  predicate HasIdentity(env: Env, identity: Value) {
    "auth" in env && env["auth"].Map? && "identity" in env["auth"].m && env["auth"].m["identity"] == identity
  }

  /** For every path and every identity: the guard errs exactly when some value on the way is present but
      not a map, and otherwise is true exactly when the path leads to the username. */
  lemma GuardMeaning(segs: seq<string>, username: string, env: Env, identity: Value)
    requires HasIdentity(env, identity)
    ensures Eval(Guard(segs, 0, username), env) == Error <==> !MapsAlong(identity, segs)
    ensures MapsAlong(identity, segs) ==>
              Eval(Guard(segs, 0, username), env)
              == Val(Bool(Resolve(identity, segs) == Some(Text(username))))
  {
    assert segs[..0] == [] && segs[0..] == segs;
    GuardFrom(segs, 0, username, env, identity);
  }

  /** The same of the text the generator writes, for a path of CEL names. */
  lemma GuardTextMeaning(segs: seq<string>, username: string, env: Env, identity: Value)
    requires HasIdentity(env, identity) && Names(segs) && Plain(username)
    ensures EvalText(Show(Guard(segs, 0, username)), env)
         == if MapsAlong(identity, segs) then Val(Bool(Resolve(identity, segs) == Some(Text(username)))) else Error
  {
    GuardForm(segs, 0, username);
    TextRoundTrip(Guard(segs, 0, username));
    GuardMeaning(segs, username, env, identity);
  }

  /** The bare comparison the generator avoids errs for every caller whose identity lacks the path. */
  lemma {:induction false} BareComparisonErrs(segs: seq<string>, username: string, env: Env, identity: Value)
    requires HasIdentity(env, identity)
    ensures Eval(Guard(segs, |segs|, username), env) == Error <==> Resolve(identity, segs) == None
  {
    PathValue(segs, env, identity);
  }

  lemma {:induction false} PathValue(segs: seq<string>, env: Env, identity: Value)
    requires HasIdentity(env, identity)
    ensures Eval(IdentityPath(segs), env)
         == match Resolve(identity, segs) { case None => Error case Some(v) => Val(v) }
  {
    if segs != [] {
      var init := segs[..|segs| - 1];
      PathValue(init, env, identity);
      ResolveSnoc(identity, init, segs[|segs| - 1]);
      assert segs == init + [segs[|segs| - 1]];
    }
  }

  lemma {:induction false} ResolveSnoc(tree: Value, init: seq<string>, last: string)
    ensures Resolve(tree, init + [last])
         == match Resolve(tree, init) {
              case None => None
              case Some(v) => if v.Map? && last in v.m then Some(v.m[last]) else None
            }
  {
    var segs := init + [last];
    if init == [] {
      assert segs[1..] == [];
    } else if tree.Map? && init[0] in tree.m {
      ResolveSnoc(tree.m[init[0]], init[1..], last);
      assert segs[1..] == init[1..] + [last];
    }
  }
}
