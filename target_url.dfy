/**
 * The delivery URL a webhook is registered with:
 * `${target}/webhook/${event.replace(/\./g, '-')}`.
 */
module TargetUrl {

  const WebhookPath := "/webhook/"

  /** The event name with every `.` replaced by `-` (a global regular-expression replace). */
  function Dashed(event: string): (s: string)
    ensures |s| == |event|
    ensures forall i :: 0 <= i < |event| ==> s[i] == (if event[i] == '.' then '-' else event[i])
    ensures '.' !in s
  {
    if event == [] then []
    else [if event[0] == '.' then '-' else event[0]] + Dashed(event[1..])
  }

  /** The target URL for `event` under the delivery base URL `base`. */
  function Url(base: string, event: string): string {
    base + WebhookPath + Dashed(event)
  }

  /** The URL consists of the base, the fixed path, and a dot-free segment as long as the event. */
  lemma UrlShape(base: string, event: string)
    ensures var u := Url(base, event);
      && |u| == |base| + |WebhookPath| + |event|
      && u[..|base|] == base
      && u[|base|..|base| + |WebhookPath|] == WebhookPath
      && u[|base| + |WebhookPath|..] == Dashed(event)
      && '.' !in u[|base| + |WebhookPath|..]
  {
    var p, d := base + WebhookPath, Dashed(event);
    var u := p + d;
    assert Url(base, event) == u;
    assert u[..|p|] == p && u[|p|..] == d;
    assert p[..|base|] == base && p[|base|..] == WebhookPath;
    assert u[..|base|] == p[..|base|];
    assert u[|base|..|p|] == p[|base|..];
  }

  /** On event names without `-`, the substitution can be undone: it is injective there. */
  lemma {:induction false} DashedInjective(a: string, b: string)
    requires '-' !in a && '-' !in b
    requires Dashed(a) == Dashed(b)
    ensures a == b
  {
    assert |a| == |b|;
    forall i | 0 <= i < |a|
      ensures a[i] == b[i]
    {
      assert Dashed(a)[i] == Dashed(b)[i];
      assert a[i] in a && b[i] in b;
    }
  }

  /** Under one base, distinct event names without `-` get distinct target URLs. */
  lemma UrlInjective(base: string, a: string, b: string)
    requires '-' !in a && '-' !in b
    requires Url(base, a) == Url(base, b)
    ensures a == b
  {
    UrlShape(base, a);
    UrlShape(base, b);
    DashedInjective(a, b);
  }

  /** In general the mapping is not injective: `a.b` and `a-b` share one target URL. */
  lemma UrlCollision(base: string)
    ensures "a.b" != "a-b"
    ensures Url(base, "a.b") == Url(base, "a-b")
  {
    assert "a.b"[1] != "a-b"[1];
    var s, t := Dashed("a.b"), Dashed("a-b");
    assert |s| == 3 == |t|;
    assert s[0] == 'a' == t[0] && s[1] == '-' == t[1] && s[2] == 'b' == t[2];
    assert s == t;
  }

  /** The substitution works segment by segment. */
  lemma DashedConcat(a: string, b: string)
    ensures Dashed(a + b) == Dashed(a) + Dashed(b)
  {
    var l, r := Dashed(a + b), Dashed(a) + Dashed(b);
    assert |l| == |r|;
    forall i | 0 <= i < |l|
      ensures l[i] == r[i]
    {
      if i < |a| { assert (a + b)[i] == a[i]; } else { assert (a + b)[i] == b[i - |a|]; }
    }
  }

  /** A name without `.` is its own segment. */
  lemma DashedDotFree(event: string)
    requires '.' !in event
    ensures Dashed(event) == event
  {
    var s := Dashed(event);
    forall i | 0 <= i < |event|
      ensures s[i] == event[i]
    {
      assert event[i] in event;
    }
  }

  /**
   * A name of two dot-free words joined by one `.` (such as `post.published`) has
   * the segment of those words joined by `-` (`post-published`).
   */
  lemma DashedDottedPair(a: string, b: string)
    requires '.' !in a && '.' !in b
    ensures Dashed(a + "." + b) == a + "-" + b
  {
    DashedDotFree(a);
    DashedDotFree(b);
    DashedConcat(a, ".");
    DashedConcat(a + ".", b);
  }
}
