/** The home page's category cards (client/src/components/CategoryCards.jsx):
    the link slug built from a category name, the icon chosen for it and the
    count label. */
module CategoryCards {
  import Strings
  import Collections

  /** `s.replace(/\s+/g, '-')`: each maximal run of whitespace becomes one '-'. */
  function DashRuns(s: string): (r: string)
    ensures |r| <= |s|
    ensures forall i :: 0 <= i < |r| ==> !Strings.IsSpace(r[i])
    decreases |s|
  {
    if s == [] then []
    else if Strings.IsSpace(s[0]) then "-" + DashRuns(Strings.TrimStart(s))
    else [s[0]] + DashRuns(s[1..])
  }

  /** The slug in `/category/<slug>`: the name lower-cased, whitespace runs
      turned into '-'. Apart from the dashes it keeps exactly the name's
      non-whitespace characters, lower-cased, in order (dashes of the name
      and dashes of the slug are not told apart here; `SlugOfRun` says
      where the new ones go). */
  function Slug(name: string): (r: string)
    ensures |r| <= |name|
    ensures forall i :: 0 <= i < |r| ==> !Strings.IsSpace(r[i])
    ensures Collections.Filter(r, NotDash) == Collections.Filter(Strings.Lower(name), Visible)
  {
    DashRunsKeepsVisible(Strings.Lower(name));
    DashRuns(Strings.Lower(name))
  }

  predicate NotDash(c: char) { c != '-' }
  predicate Visible(c: char) { !Strings.IsSpace(c) && c != '-' }

  /** Without whitespace there is nothing to replace. */
  lemma {:induction false} DashRunsOfSpaceFree(s: string)
    requires forall i :: 0 <= i < |s| ==> !Strings.IsSpace(s[i])
    ensures DashRuns(s) == s
  {
    if s != [] {
      DashRunsOfSpaceFree(s[1..]);
    }
  }

  /** Each maximal run of whitespace becomes exactly one '-' between the
      pieces around it, which are slugged on their own. */
  lemma {:induction false} DashRunsOfRun(x: string, w: string, y: string)
    requires x == [] || !Strings.IsSpace(x[|x| - 1])
    requires w != [] && forall i :: 0 <= i < |w| ==> Strings.IsSpace(w[i])
    requires y == [] || !Strings.IsSpace(y[0])
    ensures DashRuns(x + w + y) == DashRuns(x) + "-" + DashRuns(y)
    decreases |x|, 1
  {
    if x == [] {
      assert x + w + y == w + y;
      Strings.TrimStartRun(w, y);
      assert DashRuns(w + y) == "-" + DashRuns(y);
    } else if Strings.IsSpace(x[0]) {
      DashRunsOfRunSpace(x, w, y);
    } else {
      DashRunsOfRunVisible(x, w, y);
    }
  }

  /** `DashRunsOfRun` when `x` starts with whitespace. */
  lemma {:induction false} DashRunsOfRunSpace(x: string, w: string, y: string)
    requires x != [] && Strings.IsSpace(x[0]) && !Strings.IsSpace(x[|x| - 1])
    requires w != [] && forall i :: 0 <= i < |w| ==> Strings.IsSpace(w[i])
    requires y == [] || !Strings.IsSpace(y[0])
    ensures DashRuns(x + w + y) == DashRuns(x) + "-" + DashRuns(y)
    decreases |x|, 0
  {
    var s := x + w + y;
    var t := Strings.TrimStart(x);
    assert t != [] && t[|t| - 1] == x[|x| - 1];
    Associative(x, w, y);
    Associative(t, w, y);
    assert Strings.IsSpace(s[0]);
    Strings.TrimStartAppend(x, w + y);
    DashRunsOfRun(t, w, y);
    assert DashRuns(x) == "-" + DashRuns(t);
    assert DashRuns(s) == "-" + DashRuns(t + w + y);
    Regroup("-", DashRuns(t), DashRuns(y));
  }

  /** `DashRunsOfRun` when `x` starts with a visible character. */
  lemma {:induction false} DashRunsOfRunVisible(x: string, w: string, y: string)
    requires x != [] && !Strings.IsSpace(x[0]) && !Strings.IsSpace(x[|x| - 1])
    requires w != [] && forall i :: 0 <= i < |w| ==> Strings.IsSpace(w[i])
    requires y == [] || !Strings.IsSpace(y[0])
    ensures DashRuns(x + w + y) == DashRuns(x) + "-" + DashRuns(y)
    decreases |x|, 0
  {
    var s := x + w + y;
    assert s[0] == x[0] && s[1..] == x[1..] + w + y;
    DashRunsOfRun(x[1..], w, y);
    assert DashRuns(x) == [x[0]] + DashRuns(x[1..]);
    assert DashRuns(s) == [x[0]] + DashRuns(x[1..] + w + y);
    Regroup([x[0]], DashRuns(x[1..]), DashRuns(y));
  }

  lemma Associative(a: string, b: string, c: string)
    ensures a + b + c == a + (b + c)
  {
  }

  lemma Regroup(p: string, a: string, b: string)
    ensures p + (a + "-" + b) == (p + a) + "-" + b
  {
  }

  /** In the slug, too, a whitespace run between two parts of the name is
      one '-' between the slugs of the parts. */
  lemma SlugOfRun(x: string, w: string, y: string)
    requires x == [] || !Strings.IsSpace(x[|x| - 1])
    requires w != [] && forall i :: 0 <= i < |w| ==> Strings.IsSpace(w[i])
    requires y == [] || !Strings.IsSpace(y[0])
    ensures Slug(x + w + y) == Slug(x) + "-" + Slug(y)
  {
    Strings.LowerAppend(x + w, y);
    Strings.LowerAppend(x, w);
    DashRunsOfRun(Strings.Lower(x), Strings.Lower(w), Strings.Lower(y));
  }

  /** A slug is lower case already. */
  lemma SlugIsLower(name: string)
    ensures Strings.Lower(Slug(name)) == Slug(name)
  {
    var t := Strings.Lower(name);
    LowerCharsSurvive(t);
  }

  /** Every character of `DashRuns(t)` is '-' or a character of `t`; so when
      `t` is lower-cased, so is the result. */
  lemma {:induction false} LowerCharsSurvive(t: string)
    requires forall i :: 0 <= i < |t| ==> Strings.LowerChar(t[i]) == t[i]
    ensures Strings.Lower(DashRuns(t)) == DashRuns(t)
    decreases |t|
  {
    if t != [] {
      if Strings.IsSpace(t[0]) {
        var u := Strings.TrimStart(t);
        assert forall i :: 0 <= i < |u| ==> u[i] == t[|t| - |u| + i];
        LowerCharsSurvive(u);
      } else {
        LowerCharsSurvive(t[1..]);
      }
    }
  }

  /** Slugging a slug changes nothing. */
  lemma SlugIdempotent(name: string)
    ensures Slug(Slug(name)) == Slug(name)
  {
    SlugIsLower(name);
    DashRunsOfSpaceFree(Slug(name));
  }

  /** Dropping a leading whitespace run drops nothing visible. */
  lemma {:induction false} VisibleAfterTrimStart(s: string)
    ensures Collections.Filter(Strings.TrimStart(s), Visible) == Collections.Filter(s, Visible)
    decreases |s|
  {
    if s != [] && Strings.IsSpace(s[0]) {
      VisibleAfterTrimStart(s[1..]);
    }
  }

  /** Apart from the dashes, `DashRuns` keeps exactly the non-whitespace
      characters, in order. */
  lemma {:induction false} DashRunsKeepsVisible(s: string)
    ensures Collections.Filter(DashRuns(s), NotDash) == Collections.Filter(s, Visible)
    decreases |s|
  {
    if s != [] {
      if Strings.IsSpace(s[0]) {
        var u := Strings.TrimStart(s);
        DashRunsKeepsVisible(u);
        VisibleAfterTrimStart(s);
        assert ("-" + DashRuns(u))[1..] == DashRuns(u);
      } else {
        DashRunsKeepsVisible(s[1..]);
        assert ([s[0]] + DashRuns(s[1..]))[1..] == DashRuns(s[1..]);
      }
    }
  }

  datatype Icon = Pill | Droplets | Capsule | Syringe | Heart | Plus

  /** `getCategoryIcon`: the switch on the lower-cased name, Pill by default. */
  function IconFor(categoryName: string): (icon: Icon)
    ensures icon == Droplets <==> Strings.Lower(categoryName) == "syrups"
    ensures icon == Capsule <==> Strings.Lower(categoryName) == "capsules"
    ensures icon == Syringe <==> Strings.Lower(categoryName) == "injections"
    ensures icon == Heart <==> Strings.Lower(categoryName) == "creams & ointments"
    ensures icon == Plus <==> Strings.Lower(categoryName) == "supplements"
  {
    match Strings.Lower(categoryName)
    case "tablets" => Pill
    case "syrups" => Droplets
    case "capsules" => Capsule
    case "injections" => Syringe
    case "creams & ointments" => Heart
    case "supplements" => Plus
    case _ => Pill
  }

  /** The icon does not depend on letter case. */
  lemma IconIgnoresCase(categoryName: string)
    ensures IconFor(Strings.Lower(categoryName)) == IconFor(categoryName)
  {
    Strings.LowerIdempotent(categoryName);
  }

  /** The count label: singular exactly for one medicine. */
  function CountLabel(medicineCount: int): (text: string)
    ensures text == "Medicine" <==> medicineCount == 1
    ensures text == "Medicine" || text == "Medicines"
  {
    if medicineCount == 1 then "Medicine" else "Medicines"
  }
}
