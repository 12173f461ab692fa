/**
 A loop over the positions of a line whose turns may skip ahead, and what such
 loops preserve, whatever a turn does.
 */
module ScanLoop {
  import opened Wrappers

  /**
   The next position, the end of the loop (dropped: a backslash at the end was
   given up), or the end of everything.
   */
  datatype Turn<+S> = Next(pos: nat, s: S) | Break(s: S, dropped: bool) | Quit(s: S)

  /** Turns move forward within the line. */
  ghost predicate Forward<S(!new)>(step: (nat, S) -> Turn<S>, end: nat) {
    forall p: nat, s: S :: p < end && step(p, s).Next? ==> p < step(p, s).pos <= end
  }

  ghost function Iterate<S(!new)>(step: (nat, S) -> Turn<S>, end: nat, pos: nat, s: S): (t: Turn<S>)
    requires Forward(step, end) && pos <= end
    ensures !t.Next?
    decreases end - pos
  {
    if pos == end then Break(s, false)
    else
      match step(pos, s)
      case Next(p, s') => Iterate(step, end, p, s')
      case t => t
  }

  lemma {:induction false} IterateKeeps<S(!new)>(step: (nat, S) -> Turn<S>, end: nat, pos: nat, s: S, inv: S -> bool)
    requires Forward(step, end) && pos <= end && inv(s)
    requires forall p: nat, x: S :: p < end && inv(x) ==> inv(step(p, x).s)
    ensures inv(Iterate(step, end, pos, s).s)
    decreases end - pos
  {
    if pos < end && step(pos, s).Next? {
      IterateKeeps(step, end, step(pos, s).pos, step(pos, s).s, inv);
    }
  }

  // --- what a line contributes ---

  function Cat(a: string, b: string): string {
    a + b
  }

  /** A measure of texts that adds up over concatenation. */
  ghost predicate Additive(h: string -> string) {
    h("") == "" && forall a: string, b: string {:trigger Cat(a, b)} :: h(Cat(a, b)) == h(a) + h(b)
  }

  /** What all turns from pos on take from the line. */
  ghost function Kept<S(!new)>(step: (nat, S) -> Turn<S>, taken: (nat, S) -> string, end: nat, pos: nat, s: S): string
    requires Forward(step, end) && pos <= end
    decreases end - pos
  {
    if pos == end then ""
    else if step(pos, s).Next? then taken(pos, s) + Kept(step, taken, end, step(pos, s).pos, step(pos, s).s)
    else taken(pos, s)
  }

  /** While inv holds, turns that do not end everything keep it and add to m what they take, measured by h. */
  ghost predicate Accounts<S(!new)>(step: (nat, S) -> Turn<S>, taken: (nat, S) -> string, end: nat,
                                    inv: S -> bool, m: S -> string, h: string -> string)
  {
    forall p: nat, s: S :: p < end && inv(s) && !step(p, s).Quit? ==>
                             inv(step(p, s).s) && m(step(p, s).s) == m(s) + h(taken(p, s))
  }

  lemma {:induction false} IterateAccounts<S(!new)>(step: (nat, S) -> Turn<S>, taken: (nat, S) -> string, end: nat,
                                                    pos: nat, s: S,
                                                    inv: S -> bool, m: S -> string, h: string -> string)
    requires Forward(step, end) && pos <= end && Additive(h) && Accounts(step, taken, end, inv, m, h) && inv(s)
    requires !Iterate(step, end, pos, s).Quit?
    ensures m(Iterate(step, end, pos, s).s) == m(s) + h(Kept(step, taken, end, pos, s))
    decreases end - pos
  {
    if pos < end {
      var t := step(pos, s);
      if t.Next? {
        IterateAccounts(step, taken, end, t.pos, t.s, inv, m, h);
        assert Cat(taken(pos, s), Kept(step, taken, end, t.pos, t.s)) == Kept(step, taken, end, pos, s);
      }
    }
  }

  // --- cutting delimiters out of a line ---

  type Delimiter = s: string | s != "" witness ";"

  predicate PrefixAt(line: string, i: nat, p: string) {
    i + |p| <= |line| && line[i..i + |p|] == p
  }

  /** kept is the text with n separate occurrences of d cut out. */
  ghost predicate Cut(text: string, d: Delimiter, n: nat, kept: string)
    decreases n
  {
    if n == 0 then kept == text
    else exists i: nat :: CutAt(text, d, i, kept) && Cut(text[i + |d|..], d, n - 1, kept[i..])
  }

  predicate CutAt(text: string, d: Delimiter, i: nat, kept: string) {
    PrefixAt(text, i, d) && i <= |kept| && kept[..i] == text[..i]
  }

  /** Text in front is kept. */
  lemma CutBehind(front: string, text: string, d: Delimiter, n: nat, kept: string)
    requires Cut(text, d, n, kept)
    ensures Cut(front + text, d, n, front + kept)
  {
    if n > 0 {
      var i: nat :| CutAt(text, d, i, kept) && Cut(text[i + |d|..], d, n - 1, kept[i..]);
      CutAtBehind(front, text, d, i, kept);
    }
  }

  lemma CutAtBehind(front: string, text: string, d: Delimiter, i: nat, kept: string)
    requires CutAt(text, d, i, kept)
    ensures CutAt(front + text, d, |front| + i, front + kept)
    ensures (front + text)[|front| + i + |d|..] == text[i + |d|..] && (front + kept)[|front| + i..] == kept[i..]
  {
    var j := |front| + i;
    assert (front + text)[j..j + |d|] == text[i..i + |d|];
    assert (front + text)[..j] == front + text[..i] && (front + kept)[..j] == front + kept[..i];
  }

  /** A delimiter in front is cut out. */
  lemma CutFront(text: string, d: Delimiter, n: nat, kept: string)
    requires Cut(text, d, n, kept)
    ensures Cut(d + text, d, n + 1, kept)
  {
    assert CutAt(d + text, d, 0, kept);
    assert (d + text)[0 + |d|..] == text && kept[0..] == kept;
  }

  /** What a turn takes is what it sees, without a delimiter in front if it cuts. */
  predicate Parts(seen: string, taken: string, cuts: bool, d: Delimiter) {
    seen == if cuts then d + taken else taken
  }

  /** One more piece in front. */
  lemma CutMore(seen: string, taken: string, cuts: bool, d: Delimiter, n: nat, text: string, kept: string)
    requires Parts(seen, taken, cuts, d) && Cut(text, d, n, kept)
    ensures Cut(seen + text, d, if cuts then n + 1 else n, taken + kept)
  {
    CutBehind(taken, text, d, n, kept);
    if cuts {
      CutFront(taken + text, d, n, taken + kept);
      Regroup(d, taken, text);
    }
  }

  lemma Regroup(a: string, b: string, c: string)
    ensures (a + b) + c == a + (b + c)
  {
  }

  /** While inv holds, turns cut what they see, and count goes up with every cut. */
  ghost predicate Slices<S(!new)>(step: (nat, S) -> Turn<S>, seen: (nat, S) -> string, taken: (nat, S) -> string,
                                  cuts: (nat, S) -> bool, end: nat, d: Delimiter, inv: S -> bool, count: S -> nat)
  {
    forall p: nat, s: S :: p < end && inv(s) && !step(p, s).Quit? ==>
                             && inv(step(p, s).s) && Parts(seen(p, s), taken(p, s), cuts(p, s), d)
                             && count(step(p, s).s) == count(s) + if cuts(p, s) then 1 else 0
  }

  lemma {:induction false} IterateCuts<S(!new)>(step: (nat, S) -> Turn<S>, seen: (nat, S) -> string,
                                                taken: (nat, S) -> string, cuts: (nat, S) -> bool, end: nat,
                                                d: Delimiter, inv: S -> bool, count: S -> nat, pos: nat, s: S)
    returns (n: nat)
    requires Forward(step, end) && pos <= end && Slices(step, seen, taken, cuts, end, d, inv, count) && inv(s)
    requires Iterate(step, end, pos, s).Break?
    ensures var t := Iterate(step, end, pos, s);
            && count(t.s) == count(s) + n && inv(t.s)
            && Cut(Kept(step, seen, end, pos, s), d, n, Kept(step, taken, end, pos, s))
    decreases end - pos
  {
    n := 0;
    if pos < end {
      var t := step(pos, s);
      assert Parts(seen(pos, s), taken(pos, s), cuts(pos, s), d);
      var text, kept := "", "";
      if t.Next? {
        n := IterateCuts(step, seen, taken, cuts, end, d, inv, count, t.pos, t.s);
        text, kept := Kept(step, seen, end, t.pos, t.s), Kept(step, taken, end, t.pos, t.s);
      } else {
        assert seen(pos, s) + "" == seen(pos, s) && taken(pos, s) + "" == taken(pos, s);
      }
      CutMore(seen(pos, s), taken(pos, s), cuts(pos, s), d, n, text, kept);
      n := if cuts(pos, s) then n + 1 else n;
    }
  }

  // --- several lines ---

  /** Lines added one after the other. */
  ghost function Feed<C(!new)>(add: (string, C) -> Option<C>, lines: seq<string>, c: C): Option<C> {
    if lines == [] then Some(c)
    else
      match add(lines[0], c)
      case None => None
      case Some(c') => Feed(add, lines[1..], c')
  }

  function Join(parts: seq<string>): string {
    if parts == [] then "" else parts[0] + Join(parts[1..])
  }

  lemma JoinMore(k: string, ks: seq<string>)
    ensures Join([k] + ks) == Cat(k, Join(ks))
  {
    assert ([k] + ks)[1..] == ks;
  }

  function Sum(ns: seq<nat>): nat {
    if ns == [] then 0 else ns[0] + Sum(ns[1..])
  }

  lemma AddMore(before: string, h: string -> string, a: string, b: string)
    requires Additive(h)
    ensures before + h(Cat(a, b)) == before + h(a) + h(b)
  {
  }

  lemma SumMore(n: nat, ns: seq<nat>)
    ensures Sum([n] + ns) == n + Sum(ns)
  {
    assert ([n] + ns)[1..] == ns;
  }
}
