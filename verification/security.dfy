/** Property access rules: a list sorted by property name, searched with an early exit. */
module Security {
  import Glob

  datatype Option<T> = None | Some(value: T)

  /** The values of XaceErrorOperation, XaceAllowOperation and XaceIgnoreOperation. */
  const ERROR: nat := 0
  const ALLOW: nat := 1
  const IGNORE: nat := 2

  datatype Restriction =
    | AnyWindow
    | RootWindow
    | WindowWithProperty(property: nat, mustHaveValue: Option<string>)

  /** A rule; `name` is the atom of the property it is about. */
  datatype Rule = Rule(name: nat, restriction: Restriction, readAction: nat, writeAction: nat, destroyAction: nat)

  /** A property of a window; `text` tells that its type is STRING and its format 8. */
  datatype Property = Property(name: nat, text: bool, data: string)

  datatype Window = Window(hasParent: bool, properties: seq<Property>)

  datatype Access = Access(read: bool, write: bool, destroy: bool)

  // ---------- Which rules apply ----------

  const NUL: char := '\0'

  /** The C string that starts at `p`: up to the next NUL, or to the end of the data. */
  function CString(data: string, p: nat): string
    requires p <= |data|
    decreases |data| - p
  {
    if p == |data| || data[p] == NUL then "" else [data[p]] + CString(data, p + 1)
  }

  /** The data is a list of NUL-terminated strings; one starts at `p`. */
  predicate StartsAt(data: string, p: nat) {
    p < |data| && (p == 0 || data[p - 1] == NUL)
  }

  /** Some string of the data matches. */
  ghost predicate SomeMatch(value: string, data: string) {
    exists p: nat :: StartsAt(data, p) && Glob.Matches(value, CString(data, p))
  }

  /** The first property with that name. */
  function FindProperty(properties: seq<Property>, name: nat): Option<Property> {
    if properties == [] then None
    else if properties[0].name == name then Some(properties[0])
    else FindProperty(properties[1..], name)
  }

  ghost predicate Applies(r: Restriction, w: Window) {
    match r
    case AnyWindow => true
    case RootWindow => !w.hasParent
    case WindowWithProperty(name, mustHaveValue) =>
      match FindProperty(w.properties, name)
      case None => false
      case Some(p) => mustHaveValue.None? || (p.text && SomeMatch(mustHaveValue.value, p.data))
  }

  /** The first rule in file order that is about the property and applies to the window. */
  ghost function FirstApplying(rules: seq<Rule>, name: nat, w: Window): Option<Rule> {
    if rules == [] then None
    else if rules[0].name == name && Applies(rules[0].restriction, w) then Some(rules[0])
    else FirstApplying(rules[1..], name, w)
  }

  // ---------- The sorted list ----------

  predicate Sorted(rules: seq<Rule>) {
    forall i, j | 0 <= i < j < |rules| :: rules[i].name <= rules[j].name
  }

  /** The rules about one property, in order. */
  function About(rules: seq<Rule>, name: nat): seq<Rule> {
    if rules == [] then []
    else if rules[0].name == name then [rules[0]] + About(rules[1..], name)
    else About(rules[1..], name)
  }

  lemma {:induction false} AboutConcat(a: seq<Rule>, b: seq<Rule>, name: nat)
    ensures About(a + b, name) == About(a, name) + About(b, name)
  {
    if a == [] {
      assert a + b == b;
    } else {
      AboutConcat(a[1..], b, name);
      assert (a + b)[1..] == a[1..] + b;
    }
  }

  lemma {:induction false} AboutNone(rules: seq<Rule>, name: nat)
    requires forall i | 0 <= i < |rules| :: rules[i].name != name
    ensures About(rules, name) == []
  {
    if rules != [] {
      AboutNone(rules[1..], name);
    }
  }

  /** Which rule is chosen depends on the rules about the property only. */
  lemma {:induction false} ChoiceIsAbout(rules: seq<Rule>, name: nat, w: Window)
    ensures FirstApplying(rules, name, w) == FirstApplying(About(rules, name), name, w)
  {
    if rules != [] {
      ChoiceIsAbout(rules[1..], name, w);
      if rules[0].name == name {
        assert About(rules, name)[1..] == About(rules[1..], name);
      }
    }
  }

  /** A new rule goes after every rule about the same property or a smaller one. */
  lemma InsertKeepsSorted(rules: seq<Rule>, r: Rule, k: nat)
    requires Sorted(rules) && k <= |rules|
    requires forall i | 0 <= i < k :: rules[i].name <= r.name
    requires k < |rules| ==> rules[k].name > r.name
    ensures Sorted(rules[..k] + [r] + rules[k..])
    ensures forall i | k <= i < |rules| :: rules[i].name > r.name
  {}

  lemma AboutOne(r: Rule, name: nat)
    ensures About([r], name) == if r.name == name then [r] else []
  {
    assert [r][1..] == [];
  }

  /** So the rules about each property stay in the order in which they were loaded. */
  lemma InsertKeepsOrder(rules: seq<Rule>, loaded: seq<Rule>, r: Rule, k: nat, name: nat)
    requires k <= |rules| && forall i | k <= i < |rules| :: rules[i].name > r.name
    requires About(rules, name) == About(loaded, name)
    ensures About(rules[..k] + [r] + rules[k..], name) == About(loaded + [r], name)
  {
    hide About;
    assert rules == rules[..k] + rules[k..];
    AboutConcat(rules[..k], rules[k..], name);
    AboutConcat(rules[..k], [r], name);
    AboutConcat(rules[..k] + [r], rules[k..], name);
    AboutConcat(loaded, [r], name);
    AboutOne(r, name);
    if r.name == name {
      AboutNone(rules[k..], name);
    }
  }

  // ---------- Searching the data of a property ----------

  lemma {:induction false} StringAt(data: string, p: nat, end: nat)
    requires p <= end <= |data| && (forall k | p <= k < end :: data[k] != NUL) && (end < |data| ==> data[end] == NUL)
    ensures CString(data, p) == data[p..end]
    decreases end - p
  {
    if p < end {
      StringAt(data, p + 1, end);
    }
  }

  method AnyStringMatches(value: string, data: string) returns (match_: bool)
    ensures match_ <==> SomeMatch(value, data)
  {
    var p := 0;
    match_ := false;
    while !match_ && p < |data|
      invariant p <= |data|
      invariant p < |data| ==> StartsAt(data, p)
      invariant !match_ ==> forall q: nat | q < p && StartsAt(data, q) :: !Glob.Matches(value, CString(data, q))
      invariant match_ ==> SomeMatch(value, data)
      decreases |data| - p, !match_
    {
      // the string that starts at p
      var end := p;
      while end < |data| && data[end] != NUL
        invariant p <= end <= |data|
        invariant forall k | p <= k < end :: data[k] != NUL
      {
        end := end + 1;
      }
      StringAt(data, p, end);
      match_ := Glob.MatchString(value, 0, data[p..end], 0);
      assert value[0..] == value && data[p..end][0..] == data[p..end];
      if !match_ {
        // skip to the next string
        p := if end < |data| then end + 1 else end;
      }
    }
  }

  // ---------- The policy ----------

  function Max(a: nat, b: nat): nat {
    if a >= b then a else b
  }

  /** The action that a chosen rule comes to. */
  function ActionOf(r: Rule, access: Access): nat {
    var a0 := ALLOW;
    var a1 := if access.read then Max(a0, r.readAction) else a0;
    var a2 := if access.write then Max(a1, r.writeAction) else a1;
    if access.destroy then Max(a2, r.destroyAction) else a2
  }

  lemma {:induction false} NoneLeft(rules: seq<Rule>, name: nat, w: Window)
    requires forall i | 0 <= i < |rules| :: rules[i].name != name
    ensures FirstApplying(rules, name, w) == None
  {
    if rules != [] {
      NoneLeft(rules[1..], name, w);
    }
  }

  /** The decision by the rules in file order. */
  ghost function Verdict(loaded: seq<Rule>, clientTrusted: bool, windowTrusted: bool, name: nat, w: Window, access: Access, rval: nat): nat {
    if clientTrusted || !windowTrusted then rval
    else
      match FirstApplying(loaded, name, w)
      case None => Max(ERROR, rval)
      case Some(r) => Max(ActionOf(r, access), rval)
  }

  /** Rule `k` is the first in file order that is about the property and applies to the window. */
  ghost predicate FirstAt(loaded: seq<Rule>, k: nat, name: nat, w: Window) {
    && k < |loaded| && loaded[k].name == name && Applies(loaded[k].restriction, w)
    && forall j | 0 <= j < k :: !(loaded[j].name == name && Applies(loaded[j].restriction, w))
  }

  ghost predicate NoneApplies(loaded: seq<Rule>, name: nat, w: Window) {
    forall j | 0 <= j < |loaded| :: !(loaded[j].name == name && Applies(loaded[j].restriction, w))
  }

  /** The answer is the largest of the answer so far, an allow, and the actions for the kinds of access that are asked for. */
  predicate Answers(r: Rule, access: Access, before: nat, after: nat) {
    && after >= before && after >= ALLOW
    && (access.read ==> after >= r.readAction)
    && (access.write ==> after >= r.writeAction)
    && (access.destroy ==> after >= r.destroyAction)
    && (|| after == before || after == ALLOW
        || (access.read && after == r.readAction)
        || (access.write && after == r.writeAction)
        || (access.destroy && after == r.destroyAction))
  }

  lemma {:induction false} FirstApplyingIs(loaded: seq<Rule>, name: nat, w: Window)
    ensures FirstApplying(loaded, name, w).None? <==> NoneApplies(loaded, name, w)
    ensures forall k: nat | FirstAt(loaded, k, name, w) :: FirstApplying(loaded, name, w) == Some(loaded[k])
  {
    hide Applies;
    if loaded != [] {
      var rest := loaded[1..];
      FirstApplyingIs(rest, name, w);
      assert forall j | 0 <= j < |rest| :: rest[j] == loaded[j + 1];
      forall k: nat | FirstAt(loaded, k, name, w)
        ensures FirstApplying(loaded, name, w) == Some(loaded[k])
      {
        if k > 0 {
          assert FirstAt(rest, k - 1, name, w);
        }
      }
      if NoneApplies(rest, name, w) && !(loaded[0].name == name && Applies(loaded[0].restriction, w)) {
        forall j | 0 <= j < |loaded|
          ensures !(loaded[j].name == name && Applies(loaded[j].restriction, w))
        {
          assert j > 0 ==> loaded[j] == rest[j - 1];
        }
      }
    }
  }

  class Policy {
    var rules: seq<Rule>
    var maxPropertyName: nat
    // the rules in the order in which they were loaded
    ghost var loaded: seq<Rule>

    ghost predicate Valid()
      reads this
    {
      && Sorted(rules)
      && (forall name :: About(rules, name) == About(loaded, name))
      && (forall i | 0 <= i < |rules| :: rules[i].name <= maxPropertyName)
    }

    constructor ()
      ensures Valid() && loaded == []
    {
      rules, maxPropertyName, loaded := [], 0, [];
    }

    /** The end of SecurityParsePropertyAccessRule: links a parsed rule into the list. */
    method Add(r: Rule)
      requires Valid()
      modifies this
      ensures Valid() && loaded == old(loaded) + [r]
    {
      maxPropertyName := Max(maxPropertyName, r.name);
      var cur := 0;
      while cur < |rules| && rules[cur].name <= r.name
        invariant cur <= |rules|
        invariant forall i | 0 <= i < cur :: rules[i].name <= r.name
      {
        cur := cur + 1;
      }
      InsertKeepsSorted(rules, r, cur);
      forall name
        ensures About(rules[..cur] + [r] + rules[cur..], name) == About(loaded + [r], name)
      {
        InsertKeepsOrder(rules, loaded, r, cur, name);
      }
      rules := rules[..cur] + [r] + rules[cur..];
      loaded := loaded + [r];
    }

    /** Does the rule apply to the window? */
    method CheckRestriction(r: Restriction, w: Window) returns (applies: bool)
      ensures applies <==> Applies(r, w)
    {
      match r
      case AnyWindow => return true;
      case RootWindow => return !w.hasParent;
      case WindowWithProperty(name, mustHaveValue) =>
        var i := 0;
        while i < |w.properties| && w.properties[i].name != name
          invariant i <= |w.properties|
          invariant FindProperty(w.properties, name) == FindProperty(w.properties[i..], name)
        {
          i := i + 1;
        }
        if i == |w.properties| {
          return false;
        }
        if mustHaveValue.None? {
          return true;
        }
        if !w.properties[i].text {
          return false;
        }
        applies := AnyStringMatches(mustHaveValue.value, w.properties[i].data);
    }

    /** The search of SecurityCheckPropertyAccess: the cutoff at the largest name, the skip and the early exit. */
    method Search(name: nat, w: Window) returns (chosen: Option<Rule>)
      requires Valid()
      ensures chosen == FirstApplying(loaded, name, w)
    {
      ChoiceIsAbout(rules, name, w);
      ChoiceIsAbout(loaded, name, w);
      chosen := None;
      if name <= maxPropertyName {
        for i := 0 to |rules|
          invariant FirstApplying(rules, name, w) == FirstApplying(rules[i..], name, w)
        {
          assert rules[i..][0] == rules[i] && rules[i..][1..] == rules[i + 1..];
          if rules[i].name < name {
            continue;
          }
          if rules[i].name > name {
            NoneLeft(rules[i..], name, w);
            return;
          }
          var applies := CheckRestriction(rules[i].restriction, w);
          if applies {
            return Some(rules[i]);
          }
        }
      } else {
        NoneLeft(rules, name, w);
      }
    }

    /** SecurityCheckPropertyAccess. */
    method CheckPropertyAccess(clientTrusted: bool, windowTrusted: bool, name: nat, w: Window, access: Access, rval: nat) returns (rval': nat)
      requires Valid()
      ensures rval' == Verdict(loaded, clientTrusted, windowTrusted, name, w, access, rval)
      // a trusted client, and a window of one that is not, are not subject to the rules
      ensures clientTrusted || !windowTrusted ==> rval' == rval
      ensures !clientTrusted && windowTrusted ==>
                && (forall k: nat | FirstAt(loaded, k, name, w) :: Answers(loaded[k], access, rval, rval'))
                && (NoneApplies(loaded, name, w) ==> rval' == rval)
    {
      FirstApplyingIs(loaded, name, w);
      if clientTrusted || !windowTrusted {
        return rval;
      }
      var action := ERROR;
      var chosen := Search(name, w);
      if chosen.Some? {
        action := ActionOf(chosen.value, access);
      }
      return if action > rval then action else rval;
    }
  }

  predicate AsksForError(r: Rule, access: Access) {
    || (access.read && r.readAction == ERROR)
    || (access.write && r.writeAction == ERROR)
    || (access.destroy && r.destroyAction == ERROR)
  }

  /** What the documentation of the return codes calls the strictest action: an error before an ignore before an allow. */
  function Strictest(r: Rule, access: Access): nat {
    if AsksForError(r, access) then ERROR
    else if (access.read && r.readAction == IGNORE) || (access.write && r.writeAction == IGNORE) || (access.destroy && r.destroyAction == IGNORE) then IGNORE
    else ALLOW
  }

  predicate Actions(r: Rule) {
    r.readAction <= IGNORE && r.writeAction <= IGNORE && r.destroyAction <= IGNORE
  }

  /** The policy read with an error as the strictest action: that of the first applicable rule, an error without one. */
  ghost function StrictVerdict(loaded: seq<Rule>, name: nat, w: Window, access: Access): nat {
    match FirstApplying(loaded, name, w)
    case None => ERROR
    case Some(r) => Strictest(r, access)
  }

  lemma {:induction false} FirstIsLoaded(loaded: seq<Rule>, name: nat, w: Window)
    ensures FirstApplying(loaded, name, w).Some? ==> FirstApplying(loaded, name, w).value in loaded
  {
    if loaded != [] {
      FirstIsLoaded(loaded[1..], name, w);
    }
  }

  /**
    * The numbers of the return codes do not increase with strictness, and the answer starts out as ALLOW: it is
    * as strict as the policy if and only if a rule applies, and the first that does asks for no error.
    */
  lemma AsStrictIff(loaded: seq<Rule>, name: nat, w: Window, access: Access)
    requires forall i | 0 <= i < |loaded| :: Actions(loaded[i])
    ensures Verdict(loaded, false, true, name, w, access, ALLOW) == StrictVerdict(loaded, name, w, access) <==>
            match FirstApplying(loaded, name, w)
            case None => false
            case Some(r) => !AsksForError(r, access)
  {
    FirstIsLoaded(loaded, name, w);
  }

  /** Without any rule the default action is an error, and reading is allowed. */
  lemma DefaultIsLost(name: nat, w: Window)
    ensures var read := Access(true, false, false);
            && StrictVerdict([], name, w, read) == ERROR
            && Verdict([], false, true, name, w, read, ALLOW) == ALLOW
  {}

  /** A rule that makes reading an error lets it through. */
  lemma ErrorIsLost(name: nat, w: Window)
    ensures var read, rule := Access(true, false, false), Rule(name, AnyWindow, ERROR, ERROR, ERROR);
            && StrictVerdict([rule], name, w, read) == ERROR
            && Verdict([rule], false, true, name, w, read, ALLOW) == ALLOW
  {}
}
