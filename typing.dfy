/** The hero banner's typing animation (src/components/Hero.tsx, `handleTyping`): a
    state machine over `text`, `isDeleting`, `loopNum` and `typingSpeed` that types a
    role one character at a time, waits, deletes it, and moves on to the next role. */
module Typing {

  /** The roles the banner cycles through. */
  const Roles: seq<string> := [
    "Full Stack Developer",
    "React Specialist",
    "UI/UX Designer",
    "Problem Solver"
  ]

  /** `roles[loopNum % roles.length]`. */
  function Role(loopNum: nat): string {
    Roles[loopNum % |Roles|]
  }

  /** `s.substring(start, end)`: both bounds clamped to `[0, |s|]`, then swapped if out
      of order. */
  function Substring(s: string, start: int, end: int): (r: string)
    ensures |r| <= |s|
  {
    var a := if start < 0 then 0 else if start > |s| then |s| else start;
    var b := if end < 0 then 0 else if end > |s| then |s| else end;
    if a <= b then s[a..b] else s[b..a]
  }

  datatype TypingState = TypingState(text: string, isDeleting: bool, loopNum: nat, typingSpeed: nat)

  /** The component's initial state. */
  const Initial := TypingState("", false, 0, 150)

  /** The invariant: the text shown is a prefix of the current role. */
  predicate ShowsPrefix(s: TypingState) {
    s.text <= Role(s.loopNum)
  }

  /** One `handleTyping` tick. All reads see the state before the tick, as the
      batched state setters do. */
  function Tick(s: TypingState): TypingState {
    var fullText := Role(s.loopNum);
    var text := if s.isDeleting then Substring(fullText, 0, |s.text| - 1)
                else Substring(fullText, 0, |s.text| + 1);
    var speed := if s.isDeleting then 50 else 150;
    if !s.isDeleting && s.text == fullText then
      TypingState(text, s.isDeleting, s.loopNum, speed)
    else if s.isDeleting && s.text == "" then
      TypingState(text, false, s.loopNum + 1, speed)
    else
      TypingState(text, s.isDeleting, s.loopNum, speed)
  }

  /** The delayed callback `setIsDeleting(true)`. */
  function BeginDeleting(s: TypingState): TypingState {
    s.(isDeleting := true)
  }

  /** Whatever the state, a tick leaves a prefix of the current role on screen; the
      delayed callback keeps a valid state valid. */
  lemma TickValid(s: TypingState)
    ensures ShowsPrefix(Tick(s))
    ensures ShowsPrefix(s) ==> ShowsPrefix(BeginDeleting(s))
  {
    var full := Role(s.loopNum);
    var n := if s.isDeleting then |s.text| - 1 else |s.text| + 1;
    var k := if n < 0 then 0 else if n > |full| then |full| else n;
    assert Substring(full, 0, n) == full[..k];
  }

  /** What one tick does in each phase: typing appends the role's next character,
      deleting drops the last one, a fully typed role stays until the callback, and an
      emptied role moves on to the next one. `typingSpeed` is 50 after a deleting tick
      and 150 otherwise; `loopNum` never decreases, and no tick starts deleting. */
  lemma TickSpec(s: TypingState)
    requires ShowsPrefix(s)
    ensures var t := Tick(s); var full := Role(s.loopNum);
      && (!s.isDeleting && |s.text| < |full| ==>
            t.text == s.text + [full[|s.text|]] && !t.isDeleting && t.loopNum == s.loopNum)
      && (s.isDeleting && s.text != "" ==>
            t.text == s.text[..|s.text| - 1] && t.isDeleting && t.loopNum == s.loopNum)
      && (!s.isDeleting && s.text == full ==>
            t.text == s.text && !t.isDeleting && t.loopNum == s.loopNum)
      && (s.isDeleting && s.text == "" ==>
            t.text == "" && !t.isDeleting && t.loopNum == s.loopNum + 1)
      && t.typingSpeed == (if s.isDeleting then 50 else 150)
      && t.loopNum >= s.loopNum
      && (t.isDeleting ==> s.isDeleting)
  {
    var full := Role(s.loopNum);
    var t := Tick(s);
    if !s.isDeleting && |s.text| < |full| {
      assert full[..|s.text|] == s.text;
      assert t.text == full[..|s.text| + 1];
      assert full[..|s.text| + 1] == full[..|s.text|] + [full[|s.text|]];
    }
    if s.isDeleting && s.text != "" {
      assert t.text == full[..|s.text| - 1];
      assert full[..|s.text|] == s.text;
    }
  }

  /** `k` ticks in a row. */
  function Run(s: TypingState, k: nat): TypingState
    decreases k
  {
    if k == 0 then s else Run(Tick(s), k - 1)
  }

  /** From `j` typed characters, `|role| - j` ticks finish typing the role. */
  lemma {:induction false} TypesOut(n: nat, j: nat, speed: nat)
    requires j <= |Role(n)|
    ensures var t := Run(TypingState(Role(n)[..j], false, n, speed), |Role(n)| - j);
      && t.text == Role(n) && !t.isDeleting && t.loopNum == n
      && t.typingSpeed == (if j == |Role(n)| then speed else 150)
    decreases |Role(n)| - j
  {
    var full := Role(n);
    if j < |full| {
      var s := TypingState(full[..j], false, n, speed);
      TickSpec(s);
      assert full[..j] + [full[j]] == full[..j + 1];
      TypesOut(n, j + 1, 150);
    } else {
      assert full[..j] == full;
    }
  }

  /** From `j` remaining characters while deleting, `j + 1` ticks empty the text and
      move on to the next role. */
  lemma {:induction false} DeletesOut(n: nat, j: nat, speed: nat)
    requires j <= |Role(n)|
    ensures Run(TypingState(Role(n)[..j], true, n, speed), j + 1) == TypingState("", false, n + 1, 50)
  {
    var full := Role(n);
    var s := TypingState(full[..j], true, n, speed);
    TickSpec(s);
    if j > 0 {
      assert full[..j][..j - 1] == full[..j - 1];
      DeletesOut(n, j - 1, 50);
    }
  }

  /** One full lap: typing the role from empty, the tick on the fully typed role that
      schedules the callback (and changes nothing), the callback, and deleting the role
      again bring the banner back to an empty text on the next role. */
  lemma Lap(n: nat, speed: nat)
    ensures var typed := Run(TypingState("", false, n, speed), |Role(n)|);
      && typed.text == Role(n) && !typed.isDeleting
      && Tick(typed) == typed
      && Run(BeginDeleting(Tick(typed)), |Role(n)| + 1) == TypingState("", false, n + 1, 50)
  {
    var full := Role(n);
    assert |Roles[n % |Roles|]| > 0;
    assert full[..0] == "";
    TypesOut(n, 0, speed);
    var typed := Run(TypingState("", false, n, speed), |full|);
    TickSpec(typed);
    assert full[..|full|] == full;
    DeletesOut(n, |full|, typed.typingSpeed);
  }

  /** The component's four state slots and the two events that change them. */
  class Typewriter {
    var text: string
    var isDeleting: bool
    var loopNum: nat
    var typingSpeed: nat

    function State(): TypingState
      reads this
    {
      TypingState(text, isDeleting, loopNum, typingSpeed)
    }

    ghost predicate Valid()
      reads this
    {
      ShowsPrefix(State())
    }

    constructor ()
      ensures State() == Initial && Valid()
    {
      text := "";
      isDeleting := false;
      loopNum := 0;
      typingSpeed := 150;
    }

    /** `handleTyping`, run when the `typingSpeed` timer fires. */
    method Step()
      modifies this
      ensures State() == Tick(old(State()))
      ensures Valid()
    {
      ghost var before := State();
      var fullText := Role(loopNum);
      var wasDeleting, oldText := isDeleting, text;
      if wasDeleting {
        text := Substring(fullText, 0, |oldText| - 1);
      } else {
        text := Substring(fullText, 0, |oldText| + 1);
      }
      typingSpeed := if wasDeleting then 50 else 150;
      if !wasDeleting && oldText == fullText {
        // the switch to deleting is scheduled; it arrives as StartDeleting
      } else if wasDeleting && oldText == "" {
        isDeleting := false;
        loopNum := loopNum + 1;
      }
      TickValid(before);
    }

    /** The callback scheduled one second after the role is fully typed. */
    method StartDeleting()
      modifies this
      ensures State() == BeginDeleting(old(State()))
      ensures old(Valid()) ==> Valid()
    {
      TickValid(State());
      isDeleting := true;
    }
  }
}
