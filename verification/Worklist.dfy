/** The explicit-stack traversal shared by several loops of the program: a term is
    finished only when all its arguments are, and a finished term is popped. */
module Worklist {
  import opened Terms

  function Unmarked(args: seq<Expr>, marked: set<Expr>): seq<Expr> {
    if args == [] then []
    else Unmarked(args[..|args| - 1], marked)
         + if args[|args| - 1] in marked then [] else [args[|args| - 1]]
  }

  lemma {:induction false} UnmarkedAre(args: seq<Expr>, marked: set<Expr>)
    ensures forall x :: x in Unmarked(args, marked) <==> x in args && x !in marked
  {
    if args != [] {
      UnmarkedAre(args[..|args| - 1], marked);
      assert args == args[..|args| - 1] + [args[|args| - 1]];
    }
  }

  /** Pushes the unmarked arguments; true iff there were none. */
  method PushUnmarked(stack: seq<Expr>, marked: set<Expr>, args: seq<Expr>)
    returns (pushed: seq<Expr>, result: bool)
    ensures pushed == stack + Unmarked(args, marked)
    ensures result <==> forall x :: x in args ==> x in marked
    ensures result ==> pushed == stack
    ensures forall x :: x in pushed ==> x in stack || (x in args && x !in marked)
    ensures forall x :: x in stack ==> x in pushed
    ensures !result ==> |pushed| > 0 && pushed[|pushed| - 1] in args && pushed[|pushed| - 1] !in marked
  {
    pushed, result := stack, true;
    for i := 0 to |args|
      invariant pushed == stack + Unmarked(args[..i], marked)
      invariant result <==> Unmarked(args[..i], marked) == []
    {
      assert args[..i + 1][..i] == args[..i];
      if args[i] !in marked {
        pushed := pushed + [args[i]];
        result := false;
      }
    }
    assert args[..|args|] == args;
    UnmarkedAre(args, marked);
    if result {
      forall x | x in args ensures x in marked { assert x !in Unmarked(args, marked); }
    } else {
      assert Unmarked(args, marked)[|Unmarked(args, marked)| - 1] in Unmarked(args, marked);
    }
  }

  predicate TopMarked(stack: seq<Expr>, marked: set<Expr>) {
    stack != [] && stack[|stack| - 1] in marked
  }

  /** With the marks unchanged, popping finished terms shortens the stack, and
      pushing puts a proper subterm of the previous top on top. */
  function PopsLeft(stack: seq<Expr>, marked: set<Expr>): nat {
    if TopMarked(stack, marked) then |stack| else 0
  }

  function OpenTop(stack: seq<Expr>, marked: set<Expr>): Expr {
    if stack == [] || TopMarked(stack, marked) then Var(0, BOOL) else stack[|stack| - 1]
  }

  ghost predicate Closed(marked: set<Expr>) {
    forall a :: a in marked && a.App? ==> forall x :: x in a.args ==> x in marked
  }

  lemma {:induction false} ClosedHasSubterms(marked: set<Expr>, e: Expr)
    requires Closed(marked) && e in marked
    ensures Sub(e) <= marked
    decreases e
  {
    if e.App? {
      forall x | x in SubAll(e.args) ensures x in marked {
        var i :| 0 <= i < |e.args| && x in Sub(e.args[i]);
        assert e.args[i] in e.args;
        ClosedHasSubterms(marked, e.args[i]);
      }
    }
  }

  lemma ClosedHasAll(marked: set<Expr>, es: seq<Expr>)
    requires Closed(marked) && forall x :: x in es ==> x in marked
    ensures SubAll(es) <= marked
  {
    forall x | x in SubAll(es) ensures x in marked {
      var i :| 0 <= i < |es| && x in Sub(es[i]);
      assert es[i] in es;
      ClosedHasSubterms(marked, es[i]);
    }
  }
}
