/** One request of a client becomes one for each screen: ids, and positions on the root, are rewritten in place. */
module ScreenRequests {
  import opened Regions
  import opened ScreenPoints
  import opened ValueLists

  type XID = Card32

  const CW_X: nat := 0
  const CW_Y: nat := 1
  const CW_SIBLING: nat := 5
  const CW_BACK_PIXMAP: nat := 0
  const CW_BORDER_PIXMAP: nat := 2
  const CW_COLORMAP: nat := 13
  const GC_TILE: nat := 10
  const GC_STIPPLE: nat := 11
  const GC_CLIP_MASK: nat := 19
  const NONE: Card32 := 0
  const COPY_FROM_PARENT: Card32 := 0
  const PARENT_RELATIVE: Card32 := 1
  const INPUT_ONLY: Card32 := 2

  datatype Status = Success | BadLength | BadWindow | BadMatch | BadPixmap | BadColor | BadDrawable | Refused(code: nat)

  /** The id on each screen, by the id that the client knows. */
  type Resources = map<XID, seq<XID>>

  predicate OnScreens(resources: Resources, screens: nat) {
    forall x | x in resources :: |resources[x]| == screens
  }

  // ---------- Attributes that differ from screen to screen ----------

  /** What becomes of an attribute: nothing, or it gets a value for each screen, or it names something unknown. */
  datatype Change = Same | Unknown | PerScreen(values: seq<Card32>)

  /** An attribute that names a resource, unless its value is one of those that name nothing. */
  function Named(mask: nat, values: seq<Card32>, k: nat, nothing: set<Card32>, resources: Resources): Change
    requires |values| == Ones(mask)
  {
    SlotInside(mask, k);
    if !Has(mask, k) || values[Slot(mask, k)] in nothing then Same
    else if values[Slot(mask, k)] !in resources then Unknown
    else PerScreen(resources[values[Slot(mask, k)]])
  }

  predicate ChangeOk(mask: nat, k: nat, c: Change, screens: nat) {
    c.PerScreen? ==> Has(mask, k) && |c.values| == screens
  }

  /** The attributes of a request for screen j, in terms of those of the client's request. */
  function Changed(attributes: map<nat, Card32>, k: nat, c: Change, j: nat): map<nat, Card32> {
    if c.PerScreen? && j < |c.values| then attributes[k := c.values[j]] else attributes
  }

  /** The same in the value list. */
  function Put(mask: nat, values: seq<Card32>, k: nat, c: Change, j: nat): (r: seq<Card32>)
    ensures |r| == |values|
  {
    if c.PerScreen? && j < |c.values| && Slot(mask, k) < |values| then values[Slot(mask, k) := c.values[j]] else values
  }

  lemma PutIs(mask: nat, values: seq<Card32>, k: nat, c: Change, j: nat, screens: nat)
    requires |values| == Ones(mask) && ChangeOk(mask, k, c, screens) && j < screens
    ensures Decode(mask, Put(mask, values, k, c, j)) == Changed(Decode(mask, values), k, c, j)
  {
    if c.PerScreen? {
      WriteSlot(mask, values, 0, k, c.values[j]);
    }
  }

  /** The attributes agree except for those that differ from screen to screen. */
  ghost predicate AgreeBut(a: map<nat, Card32>, b: map<nat, Card32>, k1: nat, c1: Change, k2: nat, c2: Change, k3: nat, c3: Change) {
    && a.Keys == b.Keys
    && forall k | k in a ::
         a[k] == b[k] || (k == k1 && c1.PerScreen?) || (k == k2 && c2.PerScreen?) || (k == k3 && c3.PerScreen?)
  }

  function Changed3(a: map<nat, Card32>, k1: nat, c1: Change, k2: nat, c2: Change, k3: nat, c3: Change, j: nat): map<nat, Card32> {
    Changed(Changed(Changed(a, k1, c1, j), k2, c2, j), k3, c3, j)
  }

  lemma ChangedAgain(a: map<nat, Card32>, d: map<nat, Card32>,
                     k1: nat, c1: Change, k2: nat, c2: Change, k3: nat, c3: Change, j: nat, screens: nat)
    requires j < screens && AgreeBut(a, d, k1, c1, k2, c2, k3, c3)
    requires c1.PerScreen? ==> k1 in d && |c1.values| == screens
    requires c2.PerScreen? ==> k2 in d && |c2.values| == screens
    requires c3.PerScreen? ==> k3 in d && |c3.values| == screens
    ensures Changed3(a, k1, c1, k2, c2, k3, c3, j) == Changed(Changed(Changed(a, k1, c1, j), k2, c2, j), k3, c3, j)
    ensures Changed3(a, k1, c1, k2, c2, k3, c3, j) == Changed3(d, k1, c1, k2, c2, k3, c3, j)
    ensures AgreeBut(Changed3(a, k1, c1, k2, c2, k3, c3, j), d, k1, c1, k2, c2, k3, c3)
  {}

  lemma HasKey(mask: nat, values: seq<Card32>, k: nat)
    requires |values| == Ones(mask)
    ensures k in Decode(mask, values) <==> Has(mask, k)
  {
    DecodeIs(mask, values, 0, k);
  }

  /**
    * The list is overwritten from screen to screen without being restored: what is left over from the screen
    * before is overwritten again.
    */
  lemma Overwritten(mask: nat, orig: seq<Card32>, values: seq<Card32>,
                    k1: nat, c1: Change, k2: nat, c2: Change, k3: nat, c3: Change, j: nat, screens: nat)
    requires |values| == |orig| == Ones(mask) && j < screens
    requires ChangeOk(mask, k1, c1, screens) && ChangeOk(mask, k2, c2, screens) && ChangeOk(mask, k3, c3, screens)
    requires AgreeBut(Decode(mask, values), Decode(mask, orig), k1, c1, k2, c2, k3, c3)
    ensures var after := Put(mask, Put(mask, Put(mask, values, k1, c1, j), k2, c2, j), k3, c3, j);
            && Decode(mask, after) == Changed3(Decode(mask, orig), k1, c1, k2, c2, k3, c3, j)
            && AgreeBut(Decode(mask, after), Decode(mask, orig), k1, c1, k2, c2, k3, c3)
  {
    hide Decode, Put, Changed, AgreeBut, Changed3;
    var v1 := Put(mask, values, k1, c1, j);
    var v2 := Put(mask, v1, k2, c2, j);
    PutIs(mask, values, k1, c1, j, screens);
    PutIs(mask, v1, k2, c2, j, screens);
    PutIs(mask, v2, k3, c3, j, screens);
    HasKey(mask, orig, k1);
    HasKey(mask, orig, k2);
    HasKey(mask, orig, k3);
    ChangedAgain(Decode(mask, values), Decode(mask, orig), k1, c1, k2, c2, k3, c3, j, screens);
  }

  lemma AgreesAtFirst(d: map<nat, Card32>, k1: nat, c1: Change, k2: nat, c2: Change, k3: nat, c3: Change)
    ensures AgreeBut(d, d, k1, c1, k2, c2, k3, c3)
  {}

  // ---------- What the attributes of a request for a screen are ----------

  /** An attribute names a resource that is not known. */
  ghost predicate NamesUnknown(client: map<nat, Card32>, k: nat, nothing: set<Card32>, resources: Resources) {
    k in client && client[k] !in nothing && client[k] !in resources
  }

  /** Screen j gets its own id of the resource that the client names. */
  ghost predicate NamesOwn(client: map<nat, Card32>, screen: map<nat, Card32>, k: nat, nothing: set<Card32>, resources: Resources, j: nat) {
    k in client ==>
      && k in screen
      && if client[k] in nothing then screen[k] == client[k]
         else client[k] in resources && j < |resources[client[k]]| && screen[k] == resources[client[k]][j]
  }

  /** A coordinate on the root is the client's once the origin of the screen is added, modulo 2^32. */
  ghost predicate MovedBy(client: map<nat, Card32>, screen: map<nat, Card32>, k: nat, onRoot: bool, origin: int) {
    k in client ==> k in screen && if onRoot then (screen[k] + origin - client[k]) % WORD == 0 else screen[k] == client[k]
  }

  /** The attributes other than the three are the client's. */
  ghost predicate OthersSame(client: map<nat, Card32>, screen: map<nat, Card32>, k1: nat, k2: nat, k3: nat) {
    screen.Keys == client.Keys && forall k | k in client && k != k1 && k != k2 && k != k3 :: screen[k] == client[k]
  }

  lemma NamedMeans(mask: nat, values: seq<Card32>, k: nat, nothing: set<Card32>, resources: Resources, screens: nat, j: nat)
    requires |values| == Ones(mask) && OnScreens(resources, screens) && j < screens
    ensures var d, c := Decode(mask, values), Named(mask, values, k, nothing, resources);
            && (c.Unknown? <==> NamesUnknown(d, k, nothing, resources))
            && ChangeOk(mask, k, c, screens) && (c.PerScreen? ==> k in d)
            && (!c.Unknown? ==> NamesOwn(d, Changed(d, k, c, j), k, nothing, resources, j))
  {
    DecodeIs(mask, values, 0, k);
    hide Has, Slot, Ones, DecodeFrom;
  }

  lemma UnknownMeans(mask: nat, values: seq<Card32>, k: nat, nothing: set<Card32>, resources: Resources)
    requires |values| == Ones(mask)
    ensures Named(mask, values, k, nothing, resources).Unknown? <==> NamesUnknown(Decode(mask, values), k, nothing, resources)
  {
    DecodeIs(mask, values, 0, k);
    hide Has, Slot, Ones, DecodeFrom;
  }

  lemma Congruent(v: int, origin: int)
    ensures ((v - origin) % WORD + origin - v) % WORD == 0
  {
    var q := (v - origin) / WORD;
    assert (v - origin) % WORD == v - origin - q * WORD;
    assert (-q * WORD) % WORD == 0;
  }

  lemma Changed3Means(d: map<nat, Card32>, k1: nat, c1: Change, k2: nat, c2: Change, k3: nat, c3: Change, j: nat)
    requires k1 != k2 && k2 != k3 && k1 != k3
    requires (c1.PerScreen? ==> k1 in d) && (c2.PerScreen? ==> k2 in d) && (c3.PerScreen? ==> k3 in d)
    ensures var r := Changed3(d, k1, c1, k2, c2, k3, c3, j);
            && OthersSame(d, r, k1, k2, k3)
            && (k1 in d ==> r[k1] == Changed(d, k1, c1, j)[k1])
            && (k2 in d ==> r[k2] == Changed(d, k2, c2, j)[k2])
            && (k3 in d ==> r[k3] == Changed(d, k3, c3, j)[k3])
  {}

  // ---------- One request after the other ----------

  /** The p-th screen that is served. */
  function ScreenAt(backward: bool, screens: nat, p: nat): nat
    requires p < screens
  {
    if backward then screens - 1 - p else p
  }

  /** Requests go out screen by screen until one is not answered with success; that answer is the result. */
  ghost predicate Answered(answers: seq<Status>, backward: bool, count: nat, status: Status) {
    && count <= |answers|
    && (forall p | 0 <= p < count - 1 :: answers[ScreenAt(backward, |answers|, p)] == Success)
    && status == (if count == 0 then Success else answers[ScreenAt(backward, |answers|, count - 1)])
    && (count < |answers| ==> status != Success)
  }

  /** The part of `Answered` that holds on the way. */
  ghost predicate Accepted(answers: seq<Status>, backward: bool, count: nat) {
    count <= |answers| && forall p | 0 <= p < count :: answers[ScreenAt(backward, |answers|, p)] == Success
  }

  // ---------- ConfigureWindow ----------

  datatype ConfigureRequest = ConfigureRequest(window: XID, mask: nat, values: seq<Card32>)

  /** A coordinate that is relative to the root becomes relative to the screen. */
  function Shifted(mask: nat, values: seq<Card32>, k: nat, onRoot: bool, origins: seq<int>): Change
    requires |values| == Ones(mask)
  {
    SlotInside(mask, k);
    if onRoot && Has(mask, k)
    then PerScreen(seq(|origins|, j requires 0 <= j < |origins| => (values[Slot(mask, k)] - origins[j]) % WORD))
    else Same
  }

  /** What the request for screen j has to say. */
  ghost predicate ConfiguresScreen(q: ConfigureRequest, r: ConfigureRequest, windows: Resources, onRoot: bool,
                                   xs: seq<int>, ys: seq<int>, j: nat)
    requires |r.values| == Ones(r.mask)
  {
    && r.window in windows && j < |windows[r.window]| && q.window == windows[r.window][j]
    && q.mask == r.mask && |q.values| == |r.values|
    && Decode(q.mask, q.values) == Changed3(Decode(r.mask, r.values),
                                            CW_SIBLING, Named(r.mask, r.values, CW_SIBLING, {NONE}, windows),
                                            CW_X, Shifted(r.mask, r.values, CW_X, onRoot, xs),
                                            CW_Y, Shifted(r.mask, r.values, CW_Y, onRoot, ys), j)
  }

  lemma ShiftedMeans(mask: nat, values: seq<Card32>, k: nat, onRoot: bool, origins: seq<int>, j: nat)
    requires |values| == Ones(mask) && j < |origins|
    ensures var d, c := Decode(mask, values), Shifted(mask, values, k, onRoot, origins);
            (c.PerScreen? ==> k in d) && MovedBy(d, Changed(d, k, c, j), k, onRoot, origins[j])
  {
    DecodeIs(mask, values, 0, k);
    hide Has, Slot, Ones, DecodeFrom;
    var d := Decode(mask, values);
    if k in d {
      Congruent(d[k], origins[j]);
    }
  }

  /** The request for screen j: its own window and sibling, and the position on the root less the origin of the screen. */
  ghost predicate ConfiguresOwn(q: ConfigureRequest, r: ConfigureRequest, windows: Resources, onRoot: bool, originX: int, originY: int, j: nat)
    requires |r.values| == Ones(r.mask)
  {
    && r.window in windows && j < |windows[r.window]| && q.window == windows[r.window][j] && q.mask == r.mask && |q.values| == Ones(q.mask)
    && var client, screen := Decode(r.mask, r.values), Decode(q.mask, q.values);
       && OthersSame(client, screen, CW_SIBLING, CW_X, CW_Y)
       && NamesOwn(client, screen, CW_SIBLING, {NONE}, windows, j)
       && MovedBy(client, screen, CW_X, onRoot, originX) && MovedBy(client, screen, CW_Y, onRoot, originY)
  }

  lemma SameKeys(client: map<nat, Card32>, screen: map<nat, Card32>, k1: nat, k2: nat, k3: nat)
    requires OthersSame(client, screen, k1, k2, k3)
    ensures screen.Keys == client.Keys
  {}

  lemma ConfigureMeans(q: ConfigureRequest, r: ConfigureRequest, windows: Resources, onRoot: bool, xs: seq<int>, ys: seq<int>, j: nat)
    requires |r.values| == Ones(r.mask) && ConfiguresScreen(q, r, windows, onRoot, xs, ys, j)
    requires !Named(r.mask, r.values, CW_SIBLING, {NONE}, windows).Unknown? && OnScreens(windows, |xs|) && j < |xs| == |ys|
    ensures ConfiguresOwn(q, r, windows, onRoot, xs[j], ys[j], j)
  {
    hide Decode, Changed3, Changed, Ones, Named, Shifted, OthersSame, OnScreens;
    NamedMeans(r.mask, r.values, CW_SIBLING, {NONE}, windows, |xs|, j);
    ShiftedMeans(r.mask, r.values, CW_X, onRoot, xs, j);
    ShiftedMeans(r.mask, r.values, CW_Y, onRoot, ys, j);
    Changed3Means(Decode(r.mask, r.values), CW_SIBLING, Named(r.mask, r.values, CW_SIBLING, {NONE}, windows),
                  CW_X, Shifted(r.mask, r.values, CW_X, onRoot, xs), CW_Y, Shifted(r.mask, r.values, CW_Y, onRoot, ys), j);
    assert OthersSame(Decode(r.mask, r.values), Decode(q.mask, q.values), CW_SIBLING, CW_X, CW_Y);
    SameKeys(Decode(r.mask, r.values), Decode(q.mask, q.values), CW_SIBLING, CW_X, CW_Y);
  }

  /** The offset of a coordinate, or -1, and its value. */
  ghost predicate Found(offset: int, x: int, c: Change, mask: nat, values: seq<Card32>, k: nat, origins: seq<int>) {
    if offset < 0 then !c.PerScreen?
    else
      && offset == Slot(mask, k) < |values|
      && c == PerScreen(seq(|origins|, j requires 0 <= j < |origins| => (x - origins[j]) % WORD))
  }

  ghost predicate Prepared(r: ConfigureRequest, windows: Resources, onRoot: bool, sibling: Change,
                           xOffset: int, x: int, yOffset: int, y: int, xs: seq<int>, ys: seq<int>) {
    && |r.values| == Ones(r.mask) && |xs| == |ys| && r.window in windows && OnScreens(windows, |xs|)
    && sibling == Named(r.mask, r.values, CW_SIBLING, {NONE}, windows)
    && Found(xOffset, x, Shifted(r.mask, r.values, CW_X, onRoot, xs), r.mask, r.values, CW_X, xs)
    && Found(yOffset, y, Shifted(r.mask, r.values, CW_Y, onRoot, ys), r.mask, r.values, CW_Y, ys)
  }

  /** The request buffer, as some screen has left it. */
  ghost predicate Fits(stuff: ConfigureRequest, r: ConfigureRequest, windows: Resources, onRoot: bool, xs: seq<int>, ys: seq<int>)
    requires |r.values| == Ones(r.mask)
  {
    && stuff.mask == r.mask && |stuff.values| == Ones(r.mask)
    && AgreeBut(Decode(r.mask, stuff.values), Decode(r.mask, r.values),
                CW_SIBLING, Named(r.mask, r.values, CW_SIBLING, {NONE}, windows),
                CW_X, Shifted(r.mask, r.values, CW_X, onRoot, xs),
                CW_Y, Shifted(r.mask, r.values, CW_Y, onRoot, ys))
  }

  lemma NotYetConfigured(r: ConfigureRequest, windows: Resources, onRoot: bool, xs: seq<int>, ys: seq<int>)
    requires |r.values| == Ones(r.mask)
    ensures Fits(r, r, windows, onRoot, xs, ys)
  {}

  /** Overwrite a value in place; a negative offset stands for an attribute that stays. */
  function WriteAt(values: seq<Card32>, offset: int, v: Card32): (r: seq<Card32>)
    ensures |r| == |values|
  {
    if 0 <= offset < |values| then values[offset := v] else values
  }

  /** The offset and the value that are used for an attribute on screen j write what is asked for. */
  ghost predicate Writes(mask: nat, size: nat, k: nat, c: Change, offset: int, v: Card32, j: nat) {
    if c.PerScreen? then offset == Slot(mask, k) < size && j < |c.values| && c.values[j] == v else offset < 0
  }

  lemma SiblingWrites(mask: nat, values: seq<Card32>, windows: Resources, sibling: Change, j: nat, screens: nat)
    requires |values| == Ones(mask) && j < screens && OnScreens(windows, screens)
    requires sibling == Named(mask, values, CW_SIBLING, {NONE}, windows)
    ensures Writes(mask, |values|, CW_SIBLING, sibling, if sibling.PerScreen? then Slot(mask, CW_SIBLING) else -1,
                   if sibling.PerScreen? then sibling.values[j] else NONE, j)
    ensures ChangeOk(mask, CW_SIBLING, sibling, screens)
  {
    SlotInside(mask, CW_SIBLING);
  }

  /** The positions come first in a value list. */
  lemma FirstSlots(mask: nat, values: seq<Card32>, xs: seq<int>, ys: seq<int>, onRoot: bool)
    requires |values| == Ones(mask)
    ensures Has(mask, CW_X) ==> Slot(mask, CW_X) == 0 < |values|
    ensures Has(mask, CW_Y) ==> Slot(mask, CW_Y) == (if Has(mask, CW_X) then 1 else 0) < |values|
    ensures ChangeOk(mask, CW_X, Shifted(mask, values, CW_X, onRoot, xs), |xs|)
    ensures ChangeOk(mask, CW_Y, Shifted(mask, values, CW_Y, onRoot, ys), |ys|)
  {
    SlotHalf(mask, CW_X);
    SlotHalf(mask, CW_Y);
    SlotHalf(mask / 2, 0);
    SlotInside(mask, CW_X);
    SlotInside(mask, CW_Y);
  }

  lemma WriteIsPut(mask: nat, values: seq<Card32>, k: nat, c: Change, offset: int, v: Card32, j: nat)
    requires Writes(mask, |values|, k, c, offset, v, j)
    ensures WriteAt(values, offset, v) == Put(mask, values, k, c, j)
  {}

  /** The three writes for screen j leave a request that decodes as it should. */
  lemma Rewritten(stuff: ConfigureRequest, r: ConfigureRequest, windows: Resources, onRoot: bool, sibling: Change,
                  siblingOffset: int, siblingId: Card32, j: nat, xOffset: int, x: int, yOffset: int, y: int, xs: seq<int>, ys: seq<int>)
    requires Prepared(r, windows, onRoot, sibling, xOffset, x, yOffset, y, xs, ys) && j < |xs|
    requires Fits(stuff, r, windows, onRoot, xs, ys)
    requires Writes(r.mask, |r.values|, CW_SIBLING, sibling, siblingOffset, siblingId, j)
    requires ChangeOk(r.mask, CW_SIBLING, sibling, |xs|)
    ensures var values := WriteAt(WriteAt(WriteAt(stuff.values, siblingOffset, siblingId), xOffset, (x - xs[j]) % WORD), yOffset, (y - ys[j]) % WORD);
            var q := stuff.(window := windows[r.window][j], values := values);
            Fits(q, r, windows, onRoot, xs, ys) && ConfiguresScreen(q, r, windows, onRoot, xs, ys, j)
  {
    var shiftX := Shifted(r.mask, r.values, CW_X, onRoot, xs);
    var shiftY := Shifted(r.mask, r.values, CW_Y, onRoot, ys);
    FirstSlots(r.mask, r.values, xs, ys, onRoot);
    hide AgreeBut, Decode, Changed3, Has, Slot, Ones, Shifted, Named, Put, ChangeOk, WriteAt;
    Overwritten(r.mask, r.values, stuff.values, CW_SIBLING, sibling, CW_X, shiftX, CW_Y, shiftY, j, |xs|);
    WriteIsPut(r.mask, stuff.values, CW_SIBLING, sibling, siblingOffset, siblingId, j);
    var v1 := WriteAt(stuff.values, siblingOffset, siblingId);
    WriteIsPut(r.mask, v1, CW_X, shiftX, xOffset, (x - xs[j]) % WORD, j);
    var v2 := WriteAt(v1, xOffset, (x - xs[j]) % WORD);
    WriteIsPut(r.mask, v2, CW_Y, shiftY, yOffset, (y - ys[j]) % WORD, j);
  }

  /** The request buffer is rewritten for screen j. */
  method Reconfigured(stuff: ConfigureRequest, ghost r: ConfigureRequest, window: XID, ghost windows: Resources, ghost onRoot: bool, sibling: Change,
                      j: nat, xOffset: int, x: int, yOffset: int, y: int, xs: seq<int>, ys: seq<int>)
    returns (q: ConfigureRequest)
    requires Prepared(r, windows, onRoot, sibling, xOffset, x, yOffset, y, xs, ys) && j < |xs|
    requires Fits(stuff, r, windows, onRoot, xs, ys) && window == windows[r.window][j]
    ensures Fits(q, r, windows, onRoot, xs, ys)
    ensures ConfiguresScreen(q, r, windows, onRoot, xs, ys, j)
  {
    hide AgreeBut, Decode, Shifted, Named, ChangeOk, Writes, WriteAt, Found, ConfiguresScreen, Has, Slot, Ones;
    SiblingWrites(r.mask, r.values, windows, sibling, j, |xs|);
    var siblingOffset: int := if sibling.PerScreen? then Slot(stuff.mask, CW_SIBLING) else -1;
    var siblingId := if sibling.PerScreen? then sibling.values[j] else NONE;
    Rewritten(stuff, r, windows, onRoot, sibling, siblingOffset, siblingId, j, xOffset, x, yOffset, y, xs, ys);
    var values := WriteAt(stuff.values, siblingOffset, siblingId);
    values := WriteAt(values, xOffset, (x - xs[j]) % WORD);
    values := WriteAt(values, yOffset, (y - ys[j]) % WORD);
    q := stuff.(window := window, values := values);
  }

  /** The loop over the screens. */
  method SendConfigures(r: ConfigureRequest, windows: Resources, ghost onRoot: bool, sibling: Change,
                        xOffset: int, x: int, yOffset: int, y: int, xs: seq<int>, ys: seq<int>, answers: seq<Status>)
    returns (status: Status, sent: seq<ConfigureRequest>)
    requires |r.values| == Ones(r.mask) && r.window in windows && |windows[r.window]| == |answers|
    requires |xs| == |ys| == |answers| && Prepared(r, windows, onRoot, sibling, xOffset, x, yOffset, y, xs, ys)
    ensures Answered(answers, false, |sent|, status)
    ensures forall p | 0 <= p < |sent| :: ConfiguresScreen(sent[p], r, windows, onRoot, xs, ys, p)
  {
    hide Prepared, ConfiguresScreen, Fits, Ones;
    status, sent := Success, [];
    var stuff := r;
    var j := 0;
    NotYetConfigured(r, windows, onRoot, xs, ys);
    while j < |answers|
      invariant j <= |answers| && j == |sent| && status == Success
      invariant Accepted(answers, false, j)
      invariant Fits(stuff, r, windows, onRoot, xs, ys)
      invariant forall p | 0 <= p < |sent| :: ConfiguresScreen(sent[p], r, windows, onRoot, xs, ys, p)
    {
      stuff := Reconfigured(stuff, r, windows[r.window][j], windows, onRoot, sibling, j, xOffset, x, yOffset, y, xs, ys);
      sent := sent + [stuff];
      status := answers[j];
      j := j + 1;
      if status != Success {
        break;
      }
    }
  }

  /**
    * PanoramiXConfigureWindow; xs and ys are the origins of the screens, `onRoot` tells that the parent of the
    * window is the root, and `answers` is what the screens say to their requests.
    */
  method ConfigureWindow(r: ConfigureRequest, windows: Resources, onRoot: bool, xs: seq<int>, ys: seq<int>, answers: seq<Status>)
    returns (status: Status, sent: seq<ConfigureRequest>)
    requires |xs| == |ys| == |answers| && OnScreens(windows, |answers|)
    ensures |r.values| != Ones(r.mask) ==> status == BadLength && sent == []
    ensures |r.values| == Ones(r.mask) && (r.window !in windows || Named(r.mask, r.values, CW_SIBLING, {NONE}, windows).Unknown?) ==>
              status == BadWindow && sent == []
    ensures |r.values| == Ones(r.mask) && r.window in windows && !Named(r.mask, r.values, CW_SIBLING, {NONE}, windows).Unknown? ==>
              && Answered(answers, false, |sent|, status)
              && forall p | 0 <= p < |sent| :: ConfiguresScreen(sent[p], r, windows, onRoot, xs, ys, p)
    ensures |r.values| == Ones(r.mask) && (r.window !in windows || NamesUnknown(Decode(r.mask, r.values), CW_SIBLING, {NONE}, windows)) ==>
              status == BadWindow && sent == []
    ensures |r.values| == Ones(r.mask) && r.window in windows && !NamesUnknown(Decode(r.mask, r.values), CW_SIBLING, {NONE}, windows) ==>
              && Answered(answers, false, |sent|, status)
              && forall p | 0 <= p < |sent| :: ConfiguresOwn(sent[p], r, windows, onRoot, xs[p], ys[p], p)
  {
    hide ConfiguresScreen, ConfiguresOwn, NamesUnknown, Decode;
    if |r.values| != Ones(r.mask) {
      return BadLength, [];
    }
    if r.window !in windows {
      return BadWindow, [];
    }
    var sibling := Named(r.mask, r.values, CW_SIBLING, {NONE}, windows);
    UnknownMeans(r.mask, r.values, CW_SIBLING, {NONE}, windows);
    if sibling.Unknown? {
      return BadWindow, [];
    }
    var xOffset, yOffset := -1, -1;
    var x, y := 0, 0;
    FirstSlots(r.mask, r.values, xs, ys, onRoot);
    if onRoot {
      if Has(r.mask, CW_X) {
        xOffset := 0;
        x := r.values[0];
      }
      if Has(r.mask, CW_Y) {
        yOffset := if xOffset == -1 then 0 else 1;
        y := r.values[yOffset];
      }
    }
    status, sent := SendConfigures(r, windows, onRoot, sibling, xOffset, x, yOffset, y, xs, ys, answers);
    forall p | 0 <= p < |sent|
      ensures ConfiguresOwn(sent[p], r, windows, onRoot, xs[p], ys[p], p)
    {
      ConfigureMeans(sent[p], r, windows, onRoot, xs, ys, p);
    }
  }

  // ---------- CreateWindow and CreateGC ----------

  datatype Geometry = Geometry(depth: nat, width: nat, height: nat, borderWidth: nat)

  datatype CreateRequest = CreateRequest(wid: XID, parent: XID, x: int, y: int, visual: XID, windowClass: Card32,
                                         geometry: Geometry, mask: nat, values: seq<Card32>)

  /** What there is to look things up in; `visuals` gives the visual that a screen has for one of the first screen. */
  datatype Tables = Tables(windows: Resources, classes: map<XID, Card32>, pixmaps: Resources, colormaps: Resources,
                           roots: set<XID>, visuals: (XID, nat) -> XID)

  /** Only these attributes may be given for a window without output. */
  const INPUT_ONLY_LEGAL: set<nat> := {5, 9, 11, 12, 14}

  predicate OnlyInput(mask: nat) {
    forall k: nat | k < 32 && Has(mask, k) :: k in INPUT_ONLY_LEGAL
  }

  function BackPixmap(r: CreateRequest, t: Tables): Change
    requires |r.values| == Ones(r.mask)
  {
    Named(r.mask, r.values, CW_BACK_PIXMAP, {NONE, PARENT_RELATIVE}, t.pixmaps)
  }

  function BorderPixmap(r: CreateRequest, t: Tables): Change
    requires |r.values| == Ones(r.mask)
  {
    Named(r.mask, r.values, CW_BORDER_PIXMAP, {COPY_FROM_PARENT}, t.pixmaps)
  }

  function Colormap(r: CreateRequest, t: Tables): Change
    requires |r.values| == Ones(r.mask)
  {
    Named(r.mask, r.values, CW_COLORMAP, {COPY_FROM_PARENT, NONE}, t.colormaps)
  }

  function ClassOf(r: CreateRequest, t: Tables): Card32 {
    if r.windowClass == COPY_FROM_PARENT && r.parent in t.classes then t.classes[r.parent] else r.windowClass
  }

  /** The first thing that is wrong with the request. */
  function CreateFault(r: CreateRequest, t: Tables): Status {
    if |r.values| != Ones(r.mask) then BadLength
    else if r.parent !in t.windows then BadWindow
    else if ClassOf(r, t) == INPUT_ONLY && !OnlyInput(r.mask) then BadMatch
    else if BackPixmap(r, t).Unknown? || BorderPixmap(r, t).Unknown? then BadPixmap
    else if Colormap(r, t).Unknown? then BadColor
    else Success
  }

  /** What the request for screen j has to say. */
  ghost predicate CreatesScreen(q: CreateRequest, r: CreateRequest, t: Tables, ids: seq<XID>, xs: seq<int>, ys: seq<int>, j: nat)
    requires CreateFault(r, t) == Success && |xs| == |ys|
  {
    && j < |ids| && j < |xs| && j < |t.windows[r.parent]|
    && q.wid == ids[j] && q.parent == t.windows[r.parent][j]
    && q.windowClass == ClassOf(r, t) && q.geometry == r.geometry && q.mask == r.mask && |q.values| == |r.values|
    && q.visual == (if ClassOf(r, t) == INPUT_ONLY || r.visual == COPY_FROM_PARENT then COPY_FROM_PARENT else t.visuals(r.visual, j))
    && q.x == (if r.parent in t.roots then Wrap16(r.x - xs[j]) else r.x)
    && q.y == (if r.parent in t.roots then Wrap16(r.y - ys[j]) else r.y)
    && Decode(q.mask, q.values) == Changed3(Decode(r.mask, r.values), CW_BACK_PIXMAP, BackPixmap(r, t),
                                            CW_BORDER_PIXMAP, BorderPixmap(r, t), CW_COLORMAP, Colormap(r, t), j)
  }

  /** The class of the window: its own, or that of its parent. */
  ghost predicate WithoutOutput(r: CreateRequest, t: Tables) {
    r.windowClass == INPUT_ONLY || (r.windowClass == COPY_FROM_PARENT && r.parent in t.classes && t.classes[r.parent] == INPUT_ONLY)
  }

  /** The answer to a request before any screen is asked: what is wrong with it, in this order. */
  ghost predicate CreateAnswer(r: CreateRequest, t: Tables, status: Status) {
    if |r.values| != Ones(r.mask) then status == BadLength
    else
      var d := Decode(r.mask, r.values);
      if r.parent !in t.windows then status == BadWindow
      else if WithoutOutput(r, t) && exists k: nat :: k < 32 && k in d && k !in INPUT_ONLY_LEGAL then status == BadMatch
      else if NamesUnknown(d, CW_BACK_PIXMAP, {NONE, PARENT_RELATIVE}, t.pixmaps) then status == BadPixmap
      else if NamesUnknown(d, CW_BORDER_PIXMAP, {COPY_FROM_PARENT}, t.pixmaps) then status == BadPixmap
      else if NamesUnknown(d, CW_COLORMAP, {COPY_FROM_PARENT, NONE}, t.colormaps) then status == BadColor
      else status == Success
  }

  /** The request for screen j: its own ids, visual, pixmaps and colormap, and the position on the root less its origin. */
  ghost predicate CreatesOwn(q: CreateRequest, r: CreateRequest, t: Tables, ids: seq<XID>, originX: int, originY: int, j: nat)
    requires |r.values| == Ones(r.mask)
  {
    && r.parent in t.windows && j < |ids| && j < |t.windows[r.parent]|
    && q.wid == ids[j] && q.parent == t.windows[r.parent][j] && q.geometry == r.geometry
    && (q.windowClass == INPUT_ONLY <==> WithoutOutput(r, t)) && (r.windowClass != COPY_FROM_PARENT ==> q.windowClass == r.windowClass)
    && q.visual == (if WithoutOutput(r, t) || r.visual == COPY_FROM_PARENT then COPY_FROM_PARENT else t.visuals(r.visual, j))
    && (if r.parent in t.roots then SamePlace(Point(q.x, q.y), Point(r.x, r.y), originX, originY) else q.x == r.x && q.y == r.y)
    && q.mask == r.mask && |q.values| == Ones(q.mask)
    && var client, screen := Decode(r.mask, r.values), Decode(q.mask, q.values);
       && OthersSame(client, screen, CW_BACK_PIXMAP, CW_BORDER_PIXMAP, CW_COLORMAP)
       && NamesOwn(client, screen, CW_BACK_PIXMAP, {NONE, PARENT_RELATIVE}, t.pixmaps, j)
       && NamesOwn(client, screen, CW_BORDER_PIXMAP, {COPY_FROM_PARENT}, t.pixmaps, j)
       && NamesOwn(client, screen, CW_COLORMAP, {COPY_FROM_PARENT, NONE}, t.colormaps, j)
  }

  lemma OnlyInputMeans(mask: nat, values: seq<Card32>)
    requires |values| == Ones(mask)
    ensures OnlyInput(mask) <==> !exists k: nat :: k < 32 && k in Decode(mask, values) && k !in INPUT_ONLY_LEGAL
  {
    forall k: nat
      ensures k in Decode(mask, values) <==> Has(mask, k)
    {
      HasKey(mask, values, k);
    }
    hide Has, Decode;
  }

  lemma CreateFaultMeans(r: CreateRequest, t: Tables)
    ensures CreateAnswer(r, t, CreateFault(r, t))
  {
    hide Decode, Ones, OnlyInput, NamesUnknown, Named;
    if |r.values| == Ones(r.mask) {
      OnlyInputMeans(r.mask, r.values);
      UnknownMeans(r.mask, r.values, CW_BACK_PIXMAP, {NONE, PARENT_RELATIVE}, t.pixmaps);
      UnknownMeans(r.mask, r.values, CW_BORDER_PIXMAP, {COPY_FROM_PARENT}, t.pixmaps);
      UnknownMeans(r.mask, r.values, CW_COLORMAP, {COPY_FROM_PARENT, NONE}, t.colormaps);
    }
  }

  predicate TablesOk(t: Tables, screens: nat) {
    && OnScreens(t.windows, screens) && OnScreens(t.pixmaps, screens) && OnScreens(t.colormaps, screens)
    && t.classes.Keys == t.windows.Keys
  }

  lemma CreateMeans(q: CreateRequest, r: CreateRequest, t: Tables, ids: seq<XID>, xs: seq<int>, ys: seq<int>, j: nat)
    requires CreateFault(r, t) == Success && |xs| == |ys| == |ids| && CreatesScreen(q, r, t, ids, xs, ys, j) && TablesOk(t, |ids|)
    ensures |r.values| == Ones(r.mask) && j < |xs| && CreatesOwn(q, r, t, ids, xs[j], ys[j], j)
  {
    hide Decode, Ones, OnlyInput, Named, Changed3, OthersSame, Changed, Wrap16, OnScreens, NamesUnknown;
    var d, pixmaps, colormaps := Decode(r.mask, r.values), t.pixmaps, t.colormaps;
    NamedMeans(r.mask, r.values, CW_BACK_PIXMAP, {NONE, PARENT_RELATIVE}, pixmaps, |ids|, j);
    NamedMeans(r.mask, r.values, CW_BORDER_PIXMAP, {COPY_FROM_PARENT}, pixmaps, |ids|, j);
    NamedMeans(r.mask, r.values, CW_COLORMAP, {COPY_FROM_PARENT, NONE}, colormaps, |ids|, j);
    Changed3Means(d, CW_BACK_PIXMAP, BackPixmap(r, t), CW_BORDER_PIXMAP, BorderPixmap(r, t), CW_COLORMAP, Colormap(r, t), j);
    SameKeys(d, Decode(q.mask, q.values), CW_BACK_PIXMAP, CW_BORDER_PIXMAP, CW_COLORMAP);
    WrapIs(r.x - xs[j]);
    WrapIs(r.y - ys[j]);
  }

  ghost predicate StillCreates(stuff: CreateRequest, r: CreateRequest, t: Tables)
    requires CreateFault(r, t) == Success
  {
    && stuff.windowClass == ClassOf(r, t) && stuff.geometry == r.geometry
    && stuff.mask == r.mask && |stuff.values| == Ones(r.mask)
    && (r.parent !in t.roots ==> stuff.x == r.x && stuff.y == r.y)
    && (ClassOf(r, t) == INPUT_ONLY || r.visual == COPY_FROM_PARENT ==> stuff.visual == COPY_FROM_PARENT)
    && AgreeBut(Decode(r.mask, stuff.values), Decode(r.mask, r.values), CW_BACK_PIXMAP, BackPixmap(r, t),
                CW_BORDER_PIXMAP, BorderPixmap(r, t), CW_COLORMAP, Colormap(r, t))
  }

  lemma FirstCreate(stuff: CreateRequest, r: CreateRequest, t: Tables)
    requires CreateFault(r, t) == Success
    requires stuff == r.(windowClass := ClassOf(r, t), visual := if ClassOf(r, t) == INPUT_ONLY then COPY_FROM_PARENT else r.visual)
    ensures StillCreates(stuff, r, t)
  {
    hide Named, Decode;
    AgreesAtFirst(Decode(r.mask, r.values), CW_BACK_PIXMAP, BackPixmap(r, t), CW_BORDER_PIXMAP, BorderPixmap(r, t),
                  CW_COLORMAP, Colormap(r, t));
  }

  lemma ChangesOk(r: CreateRequest, t: Tables, screens: nat)
    requires CreateFault(r, t) == Success && TablesOk(t, screens)
    ensures |r.values| == Ones(r.mask) && r.parent in t.windows && |t.windows[r.parent]| == screens
    ensures ChangeOk(r.mask, CW_BACK_PIXMAP, BackPixmap(r, t), screens)
    ensures ChangeOk(r.mask, CW_BORDER_PIXMAP, BorderPixmap(r, t), screens)
    ensures ChangeOk(r.mask, CW_COLORMAP, Colormap(r, t), screens)
  {}

  /** The request buffer is rewritten for screen j. */
  method CreatedFor(stuff: CreateRequest, r: CreateRequest, t: Tables, origVisual: XID, ids: seq<XID>, xs: seq<int>, ys: seq<int>, j: nat)
    returns (q: CreateRequest)
    requires CreateFault(r, t) == Success && StillCreates(stuff, r, t)
    requires j < |ids| == |xs| == |ys| && TablesOk(t, |ids|)
    requires origVisual == if ClassOf(r, t) == INPUT_ONLY then COPY_FROM_PARENT else r.visual
    ensures StillCreates(q, r, t) && CreatesScreen(q, r, t, ids, xs, ys, j)
  {
    var backPix, bordPix, cmap := BackPixmap(r, t), BorderPixmap(r, t), Colormap(r, t);
    ChangesOk(r, t, |ids|);
    hide Named, AgreeBut, Decode, Changed3, Has, Slot, Ones, Put, ChangeOk, BackPixmap, BorderPixmap, Colormap, Wrap16;
    Overwritten(r.mask, r.values, stuff.values, CW_BACK_PIXMAP, backPix, CW_BORDER_PIXMAP, bordPix, CW_COLORMAP, cmap, j, |ids|);
    q := stuff.(wid := ids[j], parent := t.windows[r.parent][j]);
    if r.parent in t.roots {
      q := q.(x := Wrap16(r.x - xs[j]), y := Wrap16(r.y - ys[j]));
    }
    q := q.(values := Put(q.mask, q.values, CW_BACK_PIXMAP, backPix, j));
    q := q.(values := Put(q.mask, q.values, CW_BORDER_PIXMAP, bordPix, j));
    q := q.(values := Put(q.mask, q.values, CW_COLORMAP, cmap, j));
    if origVisual != COPY_FROM_PARENT {
      q := q.(visual := t.visuals(origVisual, j));
    }
  }

  /**
    * PanoramiXCreateWindow; `ids` are the ids of the window on the screens, the first being the client's. The
    * screens are served last to first, and the window is known to the server if all have created it.
    */
  method CreateWindow(r: CreateRequest, t: Tables, ids: seq<XID>, xs: seq<int>, ys: seq<int>, answers: seq<Status>)
    returns (status: Status, sent: seq<CreateRequest>, windows: Resources)
    requires |ids| == |xs| == |ys| == |answers| > 0 && ids[0] == r.wid && TablesOk(t, |answers|)
    ensures CreateFault(r, t) != Success ==> status == CreateFault(r, t) && sent == []
    ensures CreateFault(r, t) == Success ==>
              && Answered(answers, true, |sent|, status)
              && forall p | 0 <= p < |sent| :: CreatesScreen(sent[p], r, t, ids, xs, ys, ScreenAt(true, |answers|, p))
    ensures windows == if status == Success then t.windows[r.wid := ids] else t.windows
    ensures sent == [] ==> CreateAnswer(r, t, status)
    ensures sent != [] ==>
              && CreateAnswer(r, t, Success) && |r.values| == Ones(r.mask)
              && forall p | 0 <= p < |sent| :: var j := |answers| - 1 - p; CreatesOwn(sent[p], r, t, ids, xs[j], ys[j], j)
  {
    CreateFaultMeans(r, t);
    hide CreateAnswer, CreatesOwn;
    status, sent, windows := CreateFault(r, t), [], t.windows;
    if status != Success {
      return;
    }
    var stuff := r.(windowClass := ClassOf(r, t));
    if stuff.windowClass == INPUT_ONLY {
      stuff := stuff.(visual := COPY_FROM_PARENT);
    }
    var origVisual := stuff.visual;
    FirstCreate(stuff, r, t);
    hide CreateFault, CreatesScreen, StillCreates, BackPixmap, BorderPixmap, Colormap, TablesOk;
    var j := |answers| - 1;
    while j >= 0
      invariant -1 <= j < |answers| && |sent| == |answers| - 1 - j && status == Success
      invariant Accepted(answers, true, |sent|)
      invariant StillCreates(stuff, r, t)
      invariant forall p | 0 <= p < |sent| :: CreatesScreen(sent[p], r, t, ids, xs, ys, ScreenAt(true, |answers|, p))
      decreases j
    {
      stuff := CreatedFor(stuff, r, t, origVisual, ids, xs, ys, j);
      sent := sent + [stuff];
      status := answers[j];
      j := j - 1;
      if status != Success {
        break;
      }
    }
    forall p | 0 <= p < |sent|
      ensures |r.values| == Ones(r.mask)
      ensures var k := |answers| - 1 - p; CreatesOwn(sent[p], r, t, ids, xs[k], ys[k], k)
    {
      CreateMeans(sent[p], r, t, ids, xs, ys, |answers| - 1 - p);
    }
    if status == Success {
      windows := windows[r.wid := ids];
    }
  }

  datatype GCRequest = GCRequest(gc: XID, drawable: XID, mask: nat, values: seq<Card32>)

  /** The first thing that is wrong with the request. */
  function GCFault(r: GCRequest, drawables: Resources, pixmaps: Resources): Status {
    if |r.values| != Ones(r.mask) then BadLength
    else if r.drawable !in drawables then BadDrawable
    else if Named(r.mask, r.values, GC_TILE, {NONE}, pixmaps).Unknown? then BadPixmap
    else if Named(r.mask, r.values, GC_STIPPLE, {NONE}, pixmaps).Unknown? then BadPixmap
    else if Named(r.mask, r.values, GC_CLIP_MASK, {NONE}, pixmaps).Unknown? then BadPixmap
    else Success
  }

  ghost predicate GCForScreen(q: GCRequest, r: GCRequest, drawables: Resources, pixmaps: Resources, ids: seq<XID>, j: nat)
    requires GCFault(r, drawables, pixmaps) == Success
  {
    && j < |ids| && j < |drawables[r.drawable]|
    && q.gc == ids[j] && q.drawable == drawables[r.drawable][j] && q.mask == r.mask && |q.values| == |r.values|
    && Decode(q.mask, q.values) == Changed3(Decode(r.mask, r.values),
                                            GC_TILE, Named(r.mask, r.values, GC_TILE, {NONE}, pixmaps),
                                            GC_STIPPLE, Named(r.mask, r.values, GC_STIPPLE, {NONE}, pixmaps),
                                            GC_CLIP_MASK, Named(r.mask, r.values, GC_CLIP_MASK, {NONE}, pixmaps), j)
  }

  /** The answer to a request before any screen is asked. */
  ghost predicate GCAnswer(r: GCRequest, drawables: Resources, pixmaps: Resources, status: Status) {
    if |r.values| != Ones(r.mask) then status == BadLength
    else if r.drawable !in drawables then status == BadDrawable
    else if exists k | k in {GC_TILE, GC_STIPPLE, GC_CLIP_MASK} :: NamesUnknown(Decode(r.mask, r.values), k, {NONE}, pixmaps) then
      status == BadPixmap
    else status == Success
  }

  /** The request for screen j: its own GC, drawable and pixmaps. */
  ghost predicate GCForOwn(q: GCRequest, r: GCRequest, drawables: Resources, pixmaps: Resources, ids: seq<XID>, j: nat)
    requires |r.values| == Ones(r.mask)
  {
    && r.drawable in drawables && j < |ids| && j < |drawables[r.drawable]|
    && q.gc == ids[j] && q.drawable == drawables[r.drawable][j] && q.mask == r.mask && |q.values| == Ones(q.mask)
    && var client, screen := Decode(r.mask, r.values), Decode(q.mask, q.values);
       && OthersSame(client, screen, GC_TILE, GC_STIPPLE, GC_CLIP_MASK)
       && forall k | k in {GC_TILE, GC_STIPPLE, GC_CLIP_MASK} :: NamesOwn(client, screen, k, {NONE}, pixmaps, j)
  }

  lemma GCFaultMeans(r: GCRequest, drawables: Resources, pixmaps: Resources)
    ensures GCAnswer(r, drawables, pixmaps, GCFault(r, drawables, pixmaps))
  {
    hide Decode, Ones, NamesUnknown, Named;
    if |r.values| == Ones(r.mask) {
      UnknownMeans(r.mask, r.values, GC_TILE, {NONE}, pixmaps);
      UnknownMeans(r.mask, r.values, GC_STIPPLE, {NONE}, pixmaps);
      UnknownMeans(r.mask, r.values, GC_CLIP_MASK, {NONE}, pixmaps);
    }
  }

  lemma GCMeans(q: GCRequest, r: GCRequest, drawables: Resources, pixmaps: Resources, ids: seq<XID>, j: nat)
    requires GCFault(r, drawables, pixmaps) == Success && GCForScreen(q, r, drawables, pixmaps, ids, j) && OnScreens(pixmaps, |ids|)
    ensures |r.values| == Ones(r.mask) && GCForOwn(q, r, drawables, pixmaps, ids, j)
  {
    hide Decode, Ones, Named, Changed3, OthersSame, Changed, OnScreens, NamesUnknown;
    var d := Decode(r.mask, r.values);
    NamedMeans(r.mask, r.values, GC_TILE, {NONE}, pixmaps, |ids|, j);
    NamedMeans(r.mask, r.values, GC_STIPPLE, {NONE}, pixmaps, |ids|, j);
    NamedMeans(r.mask, r.values, GC_CLIP_MASK, {NONE}, pixmaps, |ids|, j);
    Changed3Means(d, GC_TILE, Named(r.mask, r.values, GC_TILE, {NONE}, pixmaps),
                  GC_STIPPLE, Named(r.mask, r.values, GC_STIPPLE, {NONE}, pixmaps),
                  GC_CLIP_MASK, Named(r.mask, r.values, GC_CLIP_MASK, {NONE}, pixmaps), j);
    SameKeys(d, Decode(q.mask, q.values), GC_TILE, GC_STIPPLE, GC_CLIP_MASK);
  }

  ghost predicate GCFits(stuff: GCRequest, r: GCRequest, pixmaps: Resources)
    requires |r.values| == Ones(r.mask)
  {
    && stuff.mask == r.mask && |stuff.values| == Ones(r.mask)
    && AgreeBut(Decode(r.mask, stuff.values), Decode(r.mask, r.values),
                GC_TILE, Named(r.mask, r.values, GC_TILE, {NONE}, pixmaps),
                GC_STIPPLE, Named(r.mask, r.values, GC_STIPPLE, {NONE}, pixmaps),
                GC_CLIP_MASK, Named(r.mask, r.values, GC_CLIP_MASK, {NONE}, pixmaps))
  }

  /** The request buffer is rewritten for screen j. */
  method GCFor(stuff: GCRequest, r: GCRequest, drawables: Resources, pixmaps: Resources, ids: seq<XID>, j: nat) returns (q: GCRequest)
    requires GCFault(r, drawables, pixmaps) == Success && GCFits(stuff, r, pixmaps)
    requires j < |ids| && OnScreens(drawables, |ids|) && OnScreens(pixmaps, |ids|)
    ensures GCFits(q, r, pixmaps) && GCForScreen(q, r, drawables, pixmaps, ids, j)
  {
    var tile := Named(r.mask, r.values, GC_TILE, {NONE}, pixmaps);
    var stip := Named(r.mask, r.values, GC_STIPPLE, {NONE}, pixmaps);
    var clip := Named(r.mask, r.values, GC_CLIP_MASK, {NONE}, pixmaps);
    assert ChangeOk(r.mask, GC_TILE, tile, |ids|) && ChangeOk(r.mask, GC_STIPPLE, stip, |ids|) && ChangeOk(r.mask, GC_CLIP_MASK, clip, |ids|);
    hide Named, AgreeBut, Decode, Changed3, Has, Slot, Ones, Put, ChangeOk;
    Overwritten(r.mask, r.values, stuff.values, GC_TILE, tile, GC_STIPPLE, stip, GC_CLIP_MASK, clip, j, |ids|);
    q := stuff.(gc := ids[j], drawable := drawables[r.drawable][j]);
    q := q.(values := Put(q.mask, q.values, GC_TILE, tile, j));
    q := q.(values := Put(q.mask, q.values, GC_STIPPLE, stip, j));
    q := q.(values := Put(q.mask, q.values, GC_CLIP_MASK, clip, j));
  }

  /** PanoramiXCreateGC. */
  method CreateGC(r: GCRequest, drawables: Resources, pixmaps: Resources, gcs: Resources, ids: seq<XID>, answers: seq<Status>)
    returns (status: Status, sent: seq<GCRequest>, known: Resources)
    requires |ids| == |answers| > 0 && ids[0] == r.gc && OnScreens(drawables, |ids|) && OnScreens(pixmaps, |ids|)
    ensures GCFault(r, drawables, pixmaps) != Success ==> status == GCFault(r, drawables, pixmaps) && sent == []
    ensures GCFault(r, drawables, pixmaps) == Success ==>
              && Answered(answers, true, |sent|, status)
              && forall p | 0 <= p < |sent| :: GCForScreen(sent[p], r, drawables, pixmaps, ids, ScreenAt(true, |answers|, p))
    ensures known == if status == Success then gcs[r.gc := ids] else gcs
    ensures sent == [] ==> GCAnswer(r, drawables, pixmaps, status)
    ensures sent != [] ==>
              && GCAnswer(r, drawables, pixmaps, Success) && |r.values| == Ones(r.mask)
              && forall p | 0 <= p < |sent| :: GCForOwn(sent[p], r, drawables, pixmaps, ids, |answers| - 1 - p)
  {
    GCFaultMeans(r, drawables, pixmaps);
    hide GCAnswer, GCForOwn;
    status, sent, known := GCFault(r, drawables, pixmaps), [], gcs;
    if status != Success {
      return;
    }
    var stuff := r;
    assert GCFits(stuff, r, pixmaps);
    hide GCFault, GCForScreen, GCFits, Named;
    var j := |answers| - 1;
    while j >= 0
      invariant -1 <= j < |answers| && |sent| == |answers| - 1 - j && status == Success
      invariant Accepted(answers, true, |sent|)
      invariant GCFits(stuff, r, pixmaps)
      invariant forall p | 0 <= p < |sent| :: GCForScreen(sent[p], r, drawables, pixmaps, ids, ScreenAt(true, |answers|, p))
      decreases j
    {
      stuff := GCFor(stuff, r, drawables, pixmaps, ids, j);
      sent := sent + [stuff];
      status := answers[j];
      j := j - 1;
      if status != Success {
        break;
      }
    }
    forall p | 0 <= p < |sent|
      ensures |r.values| == Ones(r.mask) && GCForOwn(sent[p], r, drawables, pixmaps, ids, |answers| - 1 - p)
    {
      GCMeans(sent[p], r, drawables, pixmaps, ids, |answers| - 1 - p);
    }
    if status == Success {
      known := known[r.gc := ids];
    }
  }
}
