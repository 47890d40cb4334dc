/** Which applications are replaced, and how they are grouped. */
module AckrHelper {
  import opened Terms

  datatype AppOcc = AppOcc(constArgs: set<Expr>, varArgs: set<Expr>) {
    function All(): set<Expr> { constArgs + varArgs }
  }

  type FunMap = map<Decl, AppOcc>
  type SelMap = map<Expr, AppOcc>

  predicate IsUninterpFn(a: Expr) { a.App? && IsFree(a.decl) }

  predicate IsSelect(a: Expr) {
    a.App? && a.decl.kind.Select? && |a.args| > 0 && IsUninterpConst(a.args[0])
  }

  predicate FunApp(a: Expr) { a.App? && a.args != [] && IsUninterpFn(a) }

  /** The arguments whose values decide whether two applications of a class agree. */
  function KeyArgs(a: Expr): seq<Expr>
    requires FunApp(a) || IsSelect(a)
  {
    if IsSelect(a) then a.args[1..] else a.args
  }

  predicate ConstArgs(a: Expr)
    requires FunApp(a) || IsSelect(a)
  {
    AllUnique(KeyArgs(a))
  }

  // ---------- what the collected maps must be, as functions of the visited terms ----------

  function FunOcc(R: set<Expr>, d: Decl): AppOcc {
    AppOcc(set a | a in R && FunApp(a) && a.decl == d && ConstArgs(a),
           set a | a in R && FunApp(a) && a.decl == d && !ConstArgs(a))
  }

  function SelOcc(R: set<Expr>, A: Expr): AppOcc {
    AppOcc(set a | a in R && IsSelect(a) && a.args[0] == A && ConstArgs(a),
           set a | a in R && IsSelect(a) && a.args[0] == A && !ConstArgs(a))
  }

  function FunKeys(R: set<Expr>): set<Decl> { set a | a in R && FunApp(a) :: a.decl }
  function SelKeys(R: set<Expr>): set<Expr> { set a | a in R && IsSelect(a) :: a.args[0] }

  ghost predicate IsFunMap(f2t: FunMap, R: set<Expr>) {
    f2t.Keys == FunKeys(R) && forall d :: d in f2t ==> f2t[d] == FunOcc(R, d)
  }

  ghost predicate IsSelMap(s2t: SelMap, R: set<Expr>) {
    s2t.Keys == SelKeys(R) && forall A :: A in s2t ==> s2t[A] == SelOcc(R, A)
  }

  predicate NonSelectArg(a: Expr, x: Expr) {
    a.App? && exists i :: 0 <= i < |a.args| && a.args[i] == x && !(a.decl.kind.Select? && i == 0)
  }

  function NonSelect(R: set<Expr>): set<Expr> {
    set a, x | a in R && a.App? && x in a.args && NonSelectArg(a, x) :: x
  }

  function NonFuns(R: set<Expr>): set<Decl> {
    set a | a in R && a.App? && IsHigher(a.decl) :: a.decl.kind.f
  }

  // ---------- the operations ----------

  method MarkNonSelect(a: Expr, marks: set<Expr>) returns (r: set<Expr>)
    requires a.App?
    ensures forall x :: x in r <==> x in marks || NonSelectArg(a, x)
  {
    r := marks;
    if a.decl.kind.Select? {
      var first := true;
      for i := 0 to |a.args|
        invariant first <==> i == 0
        invariant forall x :: x in r <==> x in marks || exists j :: 1 <= j < i && a.args[j] == x
      {
        if first { first := false; } else { r := r + {a.args[i]}; }
      }
    } else {
      for i := 0 to |a.args|
        invariant forall x :: x in r <==> x in marks || exists j :: 0 <= j < i && a.args[j] == x
      {
        r := r + {a.args[i]};
      }
    }
  }

  method ArgsAreConst(a: Expr) returns (isConst: bool)
    requires FunApp(a) || IsSelect(a)
    ensures isConst <==> ConstArgs(a)
  {
    isConst := IsSelect(a) || IsUnique(a.args[0]);
    var from := if IsSelect(a) then 1 else 0;
    ghost var key := KeyArgs(a);
    var i := 1;
    while isConst && i < |a.args|
      invariant 1 <= i <= |a.args|
      invariant isConst <==> forall j :: 0 <= j < i - from ==> IsUnique(key[j])
      decreases |a.args| - i
    {
      assert key[i - from] == a.args[i];
      isConst := IsUnique(a.args[i]);
      i := i + 1;
    }
  }

  function AddOcc(o: AppOcc, a: Expr, isConst: bool): AppOcc {
    if isConst then o.(constArgs := o.constArgs + {a}) else o.(varArgs := o.varArgs + {a})
  }

  method Insert(f2t: FunMap, s2t: SelMap, a: Expr, ghost R: set<Expr>) returns (f: FunMap, s: SelMap)
    requires a.App? && IsFunMap(f2t, R) && IsSelMap(s2t, R)
    ensures IsFunMap(f, R + {a}) && IsSelMap(s, R + {a})
  {
    f, s := f2t, s2t;
    if |a.args| == 0 {
      InsertNeither(f2t, s2t, a, R);
      return;
    }
    if IsSelect(a) {
      var isConst := ArgsAreConst(a);
      var o := if a.args[0] in s then s[a.args[0]] else AppOcc({}, {});
      s := s[a.args[0] := AddOcc(o, a, isConst)];
      InsertSel(f2t, s2t, a, R);
    } else if IsUninterpFn(a) {
      var isConst := ArgsAreConst(a);
      var o := if a.decl in f then f[a.decl] else AppOcc({}, {});
      f := f[a.decl := AddOcc(o, a, isConst)];
      InsertFun(f2t, s2t, a, R);
    } else {
      InsertNeither(f2t, s2t, a, R);
    }
  }

  lemma InsertNeither(f2t: FunMap, s2t: SelMap, a: Expr, R: set<Expr>)
    requires IsFunMap(f2t, R) && IsSelMap(s2t, R) && !FunApp(a) && !IsSelect(a)
    ensures IsFunMap(f2t, R + {a}) && IsSelMap(s2t, R + {a})
  {
    FunsUnchanged(f2t, a, R);
    SelsUnchanged(s2t, a, R);
  }

  lemma FunsUnchanged(f2t: FunMap, a: Expr, R: set<Expr>)
    requires IsFunMap(f2t, R) && !FunApp(a)
    ensures IsFunMap(f2t, R + {a})
  {
    assert FunKeys(R + {a}) == FunKeys(R);
    forall d ensures FunOcc(R + {a}, d) == FunOcc(R, d) {}
  }

  lemma SelsUnchanged(s2t: SelMap, a: Expr, R: set<Expr>)
    requires IsSelMap(s2t, R) && !IsSelect(a)
    ensures IsSelMap(s2t, R + {a})
  {
    assert SelKeys(R + {a}) == SelKeys(R);
    forall A ensures SelOcc(R + {a}, A) == SelOcc(R, A) {}
  }

  lemma InsertFun(f2t: FunMap, s2t: SelMap, a: Expr, R: set<Expr>)
    requires IsFunMap(f2t, R) && IsSelMap(s2t, R) && FunApp(a)
    ensures var o := if a.decl in f2t then f2t[a.decl] else AppOcc({}, {});
            IsFunMap(f2t[a.decl := AddOcc(o, a, ConstArgs(a))], R + {a})
    ensures IsSelMap(s2t, R + {a})
  {
    SelsUnchanged(s2t, a, R);
    assert FunKeys(R + {a}) == FunKeys(R) + {a.decl};
    FunOccGrows(R, a);
    FunOccEmpty(R, a.decl);
    forall d | d != a.decl ensures FunOcc(R + {a}, d) == FunOcc(R, d) {}
  }

  lemma InsertSel(f2t: FunMap, s2t: SelMap, a: Expr, R: set<Expr>)
    requires IsFunMap(f2t, R) && IsSelMap(s2t, R) && IsSelect(a)
    ensures var o := if a.args[0] in s2t then s2t[a.args[0]] else AppOcc({}, {});
            IsSelMap(s2t[a.args[0] := AddOcc(o, a, ConstArgs(a))], R + {a})
    ensures IsFunMap(f2t, R + {a})
  {
    FunsUnchanged(f2t, a, R);
    SelMapGrows(s2t, a, R);
  }

  lemma SelMapGrows(s2t: SelMap, a: Expr, R: set<Expr>)
    requires IsSelMap(s2t, R) && IsSelect(a)
    ensures var o := if a.args[0] in s2t then s2t[a.args[0]] else AppOcc({}, {});
            IsSelMap(s2t[a.args[0] := AddOcc(o, a, ConstArgs(a))], R + {a})
  {
    assert SelKeys(R + {a}) == SelKeys(R) + {a.args[0]};
    SelOccGrows(R, a);
    SelOccEmpty(R, a.args[0]);
    forall A | A != a.args[0] ensures SelOcc(R + {a}, A) == SelOcc(R, A) {}
  }

  lemma FunOccGrows(R: set<Expr>, a: Expr)
    requires FunApp(a)
    ensures AddOcc(FunOcc(R, a.decl), a, ConstArgs(a)) == FunOcc(R + {a}, a.decl)
  {
  }

  lemma FunOccEmpty(R: set<Expr>, d: Decl)
    ensures d !in FunKeys(R) ==> FunOcc(R, d) == AppOcc({}, {})
  {
  }

  lemma SelOccGrows(R: set<Expr>, a: Expr)
    requires IsSelect(a)
    ensures AddOcc(SelOcc(R, a.args[0]), a, ConstArgs(a)) == SelOcc(R + {a}, a.args[0])
  {
  }

  lemma SelOccEmpty(R: set<Expr>, A: Expr)
    ensures A !in SelKeys(R) ==> SelOcc(R, A) == AppOcc({}, {})
  {
  }

  ghost predicate Distinct<T>(q: seq<T>) {
    forall i, j :: 0 <= i < j < |q| ==> q[i] != q[j]
  }

  /** Some order of the elements of a set: every order is possible. */
  method Enumerate<T(==)>(s: set<T>) returns (q: seq<T>)
    ensures forall x :: x in q <==> x in s
    ensures |q| == |s| && Distinct(q)
  {
    q := [];
    var rest := s;
    while rest != {}
      invariant rest <= s && forall x :: x in q <==> x in s - rest
      invariant |q| + |rest| == |s| && Distinct(q)
      decreases rest
    {
      var x :| x in rest;
      q := q + [x];
      rest := rest - {x};
    }
  }

  /** Drops the groups whose key is marked; the keys to drop are listed first. */
  method Prune<K(==)>(groups: map<K, AppOcc>, marks: set<K>) returns (r: map<K, AppOcc>)
    ensures r.Keys == groups.Keys - marks
    ensures forall k :: k in r ==> r[k] == groups[k]
  {
    var keys := Enumerate(groups.Keys);
    var nons: seq<K> := [];
    for i := 0 to |keys|
      invariant forall k :: k in nons <==> k in keys[..i] && k in marks
    {
      if keys[i] in marks { nons := nons + [keys[i]]; }
    }
    r := groups;
    for i := 0 to |nons|
      invariant forall k :: k in r <==> k in groups && k !in nons[..i]
      invariant forall k :: k in r ==> r[k] == groups[k]
    {
      r := map k | k in r && k != nons[i] :: r[k];
    }
  }
}
