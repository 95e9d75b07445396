/** A DOM element's class list (`element.classList`) as a set of class names. */
module ClassList {

  type Classes = set<string>

  /** `classList.toggle(c, on)`, and with it `add(c)` (on = true) and `remove(c)`
      (on = false): afterwards `c` is present exactly when `on` says so. */
  function Force(cs: Classes, c: string, on: bool): (r: Classes)
    ensures c in r <==> on
    ensures forall d :: d != c ==> (d in r <==> d in cs)
  {
    if on then cs + {c} else cs - {c}
  }

  /** `classList.toggle(c)` without a force flag: `c` changes membership. */
  function Toggle(cs: Classes, c: string): (r: Classes)
    ensures c in r <==> c !in cs
    ensures forall d :: d != c ==> (d in r <==> d in cs)
  {
    if c in cs then cs - {c} else cs + {c}
  }

  /** Toggling twice restores the class list. */
  lemma ToggleInvolution(cs: Classes, c: string)
    ensures Toggle(Toggle(cs, c), c) == cs
  {
  }

  /** Forcing a class is idempotent and forgets what came before:
      the result depends on the last force flag only. */
  lemma ForceForgetsHistory(cs: Classes, c: string, first: bool, on: bool)
    ensures Force(Force(cs, c, first), c, on) == Force(cs, c, on)
  {
  }
}
