/** What the calculated value of a boolean or tristate symbol promises to those who
    declare it: prompts bound it from above, selects from below, and between
    them the user's wish or the first default decides. */
module KconfigRules {
  import opened Basics
  import opened KconfigExpr
  import opened KconfigDeps
  import opened KconfigValues

  /** v is the largest of the prompts' conditions, n if there is no prompt. */
  ghost predicate LargestPrompt(props: seq<Property>, env: Env, v: Tri) {
    && (forall i :: 0 <= i < |props| && props[i].kind == Prompt ==> ValueOpt(props[i].visible, env) <= v)
    && (v != 0 ==> exists i :: 0 <= i < |props| && props[i].kind == Prompt && ValueOpt(props[i].visible, env) == v)
  }

  /** A default whose condition is not n. */
  predicate Applies(p: Property, env: Env) {
    p.kind == Default && ValueOpt(p.visible, env) != 0
  }

  /** The first of them. */
  ghost predicate FirstDefault(props: seq<Property>, env: Env, i: nat) {
    i < |props| && Applies(props[i], env) && forall j :: 0 <= j < i ==> !Applies(props[j], env)
  }

  ghost predicate NoDefault(props: seq<Property>, env: Env) {
    forall i :: 0 <= i < |props| ==> !Applies(props[i], env)
  }

  /** The value of the first default that applies, n if none does. */
  ghost predicate DefaultIs(props: seq<Property>, env: Env, v: Tri) {
    && (NoDefault(props, env) ==> v == 0)
    && (forall i: nat :: FirstDefault(props, env, i) ==> v == ValueOpt(props[i].expr, env))
  }

  lemma {:induction false} PromptsLargest(props: seq<Property>, env: Env, v: Tri)
    requires LargestPrompt(props, env, v)
    ensures PromptsValue(props, env) == v
  {
    var w := PromptsAreLargest(props, env);
  }

  lemma {:induction false} PromptsAreLargest(props: seq<Property>, env: Env) returns (v: Tri)
    ensures v == PromptsValue(props, env) && LargestPrompt(props, env, v)
  {
    v := 0;
    if props != [] {
      var n := |props| - 1;
      var w := PromptsAreLargest(props[..n], env);
      v := PromptsValue(props, env);
      if v == w && v != 0 {
        var i :| 0 <= i < n && props[..n][i].kind == Prompt && ValueOpt(props[..n][i].visible, env) == w;
        assert props[i].kind == Prompt && ValueOpt(props[i].visible, env) == v;
      }
      forall i | 0 <= i < |props| && props[i].kind == Prompt ensures ValueOpt(props[i].visible, env) <= v {
        if i < n {
          assert props[..n][i] == props[i];
        }
      }
    }
  }

  lemma {:induction false} DefaultIsFirst(props: seq<Property>, env: Env)
    ensures DefaultValue(props, env).None? <==> NoDefault(props, env)
    ensures DefaultIs(props, env, OrNo(DefaultValue(props, env)))
  {
    if props != [] {
      DefaultIsFirst(props[1..], env);
      if Applies(props[0], env) {
        forall i: nat | FirstDefault(props, env, i) ensures i == 0 {
        }
      } else {
        forall i: nat | FirstDefault(props, env, i) ensures i > 0 && FirstDefault(props[1..], env, i - 1) {
        }
        forall i | 0 <= i < |props| && NoDefault(props[1..], env) ensures !Applies(props[i], env) {
          assert i > 0 ==> props[i] == props[1..][i - 1];
        }
      }
    }
  }

  /** What the symbols that select s ask for. */
  function Selected(d: Decl, env: Env): Tri {
    if d.revDep.Some? then Value(d.revDep.value, env) else 0
  }

  /** m is as good as y for a symbol that cannot be m. */
  function Raised(c: Config, s: Symbol, v: Tri): Tri {
    if v == 1 && (IsKind(s, Boolean) || c.modules == 0) then 2 else v
  }

  /** What is wanted of s: the user's value, or else the default. */
  ghost predicate Wanted(c: Config, user: User, env: Env, s: Symbol, w: Tri)
    requires s in c.table
  {
    if s in user then w == user[s] else DefaultIs(c.table[s].props, env, w)
  }

  /** The value of a symbol.  With vis the largest prompt condition and sel what
      the selecting symbols ask for:
      - it is no m where there can be none, and at least sel;
      - where a prompt is visible or a symbol selects it, it is at most the larger of
        the two, and otherwise what is wanted if that lies between them, and the
        bound that it passes if it does not, the lower one first;
      - where neither is the case it is the default, whatever the user wished. */
  lemma CalculatedValue(c: Config, user: User, env: Env, s: Symbol, vis: Tri, w: Tri)
    requires Proper(c) && Solves(c, user, env) && s in c.table
    requires LargestPrompt(c.table[s].props, env, vis) && Wanted(c, user, env, s, w)
    ensures var v, sel := env.tri(s), Selected(c.table[s], env);
            var lo, hi := Raised(c, s, sel), Raised(c, s, vis);
            && (IsKind(s, Boolean) || c.modules == 0 ==> v != 1)
            && v >= sel
            && (vis != 0 || sel != 0 ==>
                  && v <= Max(lo, hi)
                  && (lo <= w <= hi ==> v == Raised(c, s, w))
                  && (hi <= w && lo <= hi ==> v == hi)
                  && (w <= lo || hi <= lo ==> v == lo))
            && (vis == 0 && sel == 0 ==>
                  forall def: Tri :: DefaultIs(c.table[s].props, env, def) ==> v == Raised(c, s, def))
  {
    var d := c.table[s];
    PromptsLargest(d.props, env, vis);
    DefaultIsFirst(d.props, env);
    OneDefault(d.props, env, OrNo(DefaultValue(d.props, env)));
    assert env.tri(s) == Equation(c, user, s, env).tri;
  }

  /** There is one default value. */
  lemma OneDefault(props: seq<Property>, env: Env, v: Tri)
    requires DefaultIs(props, env, v)
    ensures forall w: Tri :: DefaultIs(props, env, w) ==> w == v
  {
    if !NoDefault(props, env) {
      var i :| 0 <= i < |props| && Applies(props[i], env);
      var j := Earliest(props, env, i);
    }
  }

  lemma {:induction false} Earliest(props: seq<Property>, env: Env, i: nat) returns (j: nat)
    requires i < |props| && Applies(props[i], env)
    ensures FirstDefault(props, env, j)
    decreases i
  {
    if k :| 0 <= k < i && Applies(props[k], env) {
      j := Earliest(props, env, k);
    } else {
      j := i;
    }
  }

  /** A symbol is worth saving exactly when a prompt shows it, a symbol selects it or a
      default applies. */
  lemma WorthSaving(c: Config, user: User, env: Env, s: Symbol, vis: Tri)
    requires Proper(c) && s in c.table && LargestPrompt(c.table[s].props, env, vis)
    ensures Equation(c, user, s, env).write
       <==> vis != 0 || Selected(c.table[s], env) != 0 || exists i: nat :: FirstDefault(c.table[s].props, env, i)
    ensures Equation(c, user, s, env).visible == Raised(c, s, vis)
    ensures Equation(c, user, s, env).revTri == Raised(c, s, Selected(c.table[s], env))
  {
    var d := c.table[s];
    PromptsLargest(d.props, env, vis);
    DefaultIsFirst(d.props, env);
    if i :| 0 <= i < |d.props| && Applies(d.props[i], env) {
      var j := Earliest(d.props, env, i);
    }
  }
}
