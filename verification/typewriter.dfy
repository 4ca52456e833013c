/**
 The typewriter effect of `TextEffectManager`: when the resolved animation
 is `typewriter`, the hero title is emptied and then refilled one
 character per timer tick. A character here is a Unicode scalar value,
 whereas `charAt` and `length` count UTF-16 code units; the two agree on
 text without characters outside the Basic Multilingual Plane. Timer
 delays are not modelled.
 */
module Typewriter {
  import opened Wrappers

  /** The animation variant name that turns the effect on. */
  const TypewriterName := "typewriter"

  /** The text being typed, what the heading shows, and the index of the next character. */
  datatype Typing = Typing(text: string, heading: string, index: nat)

  /** The heading always shows exactly the first `index` characters of the text. */
  predicate Valid(t: Typing) {
    t.index <= |t.text| && t.heading == t.text[..t.index]
  }

  predicate Finished(t: Typing) {
    t.index >= |t.text|
  }

  /**
   `initTypewriterEffect()`: with a hero title present and the typewriter
   animation selected, the title's text is captured and the heading
   cleared; otherwise nothing starts and the heading keeps its text.
   */
  function Start(animationName: string, title: Option<string>): (r: Option<Typing>)
    ensures r.Some? <==> title.Some? && animationName == TypewriterName
    ensures r.Some? ==> r.value.text == title.value && r.value.heading == "" && Valid(r.value)
  {
    if title.Some? && animationName == TypewriterName then Some(Typing(title.value, "", 0)) else None
  }

  /** The `type` closure: one tick appends the next character, or stops once the text is exhausted. */
  function Tick(t: Typing): (r: Typing)
    requires Valid(t)
    ensures Valid(r) && r.text == t.text
    ensures !Finished(t) ==> r.heading == t.heading + [t.text[t.index]] && r.index == t.index + 1
    ensures Finished(t) ==> r == t
  {
    if t.index < |t.text| then
      assert t.text[..t.index + 1] == t.text[..t.index] + [t.text[t.index]];
      Typing(t.text, t.heading + [t.text[t.index]], t.index + 1)
    else t
  }

  /** Ticks until the effect stops; it stops after one tick per remaining character, with the whole text shown. */
  method RunToEnd(t: Typing) returns (final: Typing, ticks: nat)
    requires Valid(t)
    ensures final.heading == t.text
    ensures final.index == |t.text|
    ensures ticks == |t.text| - t.index
  {
    final := t;
    ticks := 0;
    while !Finished(final)
      invariant Valid(final) && final.text == t.text
      invariant final.index == t.index + ticks
      decreases |final.text| - final.index
    {
      final := Tick(final);
      ticks := ticks + 1;
    }
  }

  /** Whether or not the effect runs, the title's text ends as it began (child markup is not modelled). */
  method TypeTitle(animationName: string, title: Option<string>) returns (shown: Option<string>)
    ensures shown == title
  {
    var started := Start(animationName, title);
    if started.Some? {
      var final, _ := RunToEnd(started.value);
      shown := Some(final.heading);
    } else {
      shown := title;
    }
  }
}
