/**
 Grouped requests of the FTAM service: what the initiator accepts and sends
 (ftam/ftamgroup1.c), what a receiver makes of the PDUs (ftam/ftamprovider.c)
 and how the responder replies (ftam/ftamgroup2.c).

 Bit masks are sets.  A group is a map from the flags that are set to the
 parameters given with them; parameters no check looks at are left out.  File
 attributes go over the wire as `FtamAttributes` codes them.  A parameter that is
 absent from a PDU and one that has its default value are the same thing here.
 */
module FtamGroups {
  import opened Wrappers
  import opened FtamTypes
  import Codec = FtamAttributes

  // ----- The service -----

  datatype Class = Unconstrained | Manage | Transfer | TransferManage | Access

  datatype Unit =
    | UnitRead | UnitWrite | UnitAccess | UnitLimited | UnitEnhanced
    | UnitGrouping | UnitFaduLock | UnitRecovery | UnitRestart

  datatype AttrGroup = Storage | Security | Private

  /** The kinds of PDU; the first ten can be grouped. */
  datatype Kind =
    | Begin | Select | Create | Close | Rdattr | Chattr | Deselect | Delete | Open | End
    | Locate | Erase | Read | Write | DataEnd | TransEnd | Cancel

  /** What goes with a flag; `FileSent`, `ChangesSent` and `Result` are for PDUs, `Answered` is what is kept of a result. */
  datatype Body =
    | Plain
    | Threshold(n: int)
    | File(attrs: Codec.Attributes, access: set<Perm>, passwords: map<Perm, string>, locks: Locks, override: int)
    | FileSent(coding: Option<Codec.Coding>, access: set<Perm>, passwords: map<Perm, string>, locks: Locks, override: int)
    | Names(names: set<Attr>)
    | Changes(attrs: Codec.Attributes)
    | ChangesSent(coding: Option<Codec.Coding>)
    | Opening(mode: set<Perm>, contents: Option<nat>, openLocks: Locks, locking: bool)
    | Action(action: int)
    | Result(ok: bool, coding: Option<Codec.Coding>)
    | Answered(ok: bool, attrs: Codec.Attributes)

  datatype Pdu = Pdu(request: bool, kind: Kind, body: Body)

  datatype Group = Group(threshold: int, parts: map<Kind, Body>)

  datatype GroupType = ForManagement | ForBulkBegin | ForBulkEnd

  datatype State =
    | Initialized | Management | BulkBegin | BulkEnd | DataIdle
    | Locating | Erasing | DataRead | DataWrite | DataFin1 | DataFin2 | DataCancel

  /** What was negotiated, as one of the two sides sees it. */
  datatype View = View(initiator: bool, service: Class, units: set<Unit>, attrs: set<AttrGroup>)

  /** Each flag comes with its own kind of parameters. */
  predicate Fits(k: Kind, b: Body) {
    match k
    case Select => b.File? && Codec.Whole(b.attrs)
    case Create => b.File? && Codec.Whole(b.attrs)
    case Close => b.Action?
    case Rdattr => b.Names?
    case Chattr => b.Changes? && Codec.Whole(b.attrs)
    case Open => b.Opening?
    case _ => b.Plain?
  }

  function Order(): (ks: seq<Kind>)
    ensures |ks| == 10
  {
    [Begin, Select, Create, Close, Rdattr, Chattr, Deselect, Delete, Open, End]
  }

  predicate WellTyped(g: Group) {
    forall k :: k in g.parts ==> k in Order() && Fits(k, g.parts[k])
  }

  // ----- figrpchk -----

  predicate RightState(v: View, st: State, t: GroupType) {
    v.initiator && if t == ForBulkEnd then st == DataIdle else st == Initialized
  }

  predicate RightClass(v: View, t: GroupType) {
    match v.service
    case Transfer => t != ForManagement
    case Manage => t == ForManagement
    case TransferManage => true
    case Access => true
    case Unconstrained => false
  }

  predicate OneOf(a: bool, b: bool) { a != b }

  predicate RightFlags(t: GroupType, f: set<Kind>) {
    Begin in f && End in f &&
    match t
    case ForManagement =>
      OneOf(Select in f, Create in f) && Open !in f && Close !in f && OneOf(Deselect in f, Delete in f)
    case ForBulkBegin =>
      OneOf(Select in f, Create in f) && Open in f && Close !in f && Deselect !in f && Delete !in f
    case ForBulkEnd =>
      Select !in f && Create !in f && Open !in f && Close in f && OneOf(Deselect in f, Delete in f)
  }

  /** The functional unit a grouped PDU belongs to, if the code asks for one. */
  function UnitOf(k: Kind): Option<Unit> {
    match k
    case Begin => Some(UnitGrouping)
    case End => Some(UnitGrouping)
    case Create => Some(UnitLimited)
    case Rdattr => Some(UnitLimited)
    case Delete => Some(UnitLimited)
    case Chattr => Some(UnitEnhanced)
    case _ => None
  }

  predicate Permitted(v: View, k: Kind) {
    UnitOf(k).None? || UnitOf(k).value in v.units
  }

  /** Attributes of a group that was not negotiated. */
  predicate Forbidden(v: View, a: Attr) {
    (Storage !in v.attrs && a in STORAGE) || (Security !in v.attrs && a in SECURITY)
  }

  predicate NoneForbidden(v: View, attrs: set<Attr>) {
    forall a :: a in attrs ==> !Forbidden(v, a)
  }

  /** Attributes of a file that is to be created. */
  predicate RightCreation(v: View, attrs: set<Attr>) {
    KERNEL <= attrs <= CREATION && NoneForbidden(v, attrs)
  }

  predicate RightChange(v: View, attrs: set<Attr>) {
    NoneForbidden(v, attrs) && Control !in attrs
  }

  predicate RightLocks(v: View, access: set<Perm>, locks: Locks) {
    Storage in v.attrs ==> forall p: Perm :: p !in access ==> locks.Of(p) != Shared
  }

  predicate RightFile(v: View, b: Body)
    requires b.File?
  {
    (Security !in v.attrs ==> b.passwords == map[]) && RightLocks(v, b.access, b.locks)
  }

  /** The lock checks of an open look at five locks and want the other three unused. */
  predicate RightOpen(v: View, b: Body)
    requires b.Opening?
  {
    b.mode <= MODES &&
    (Storage in v.attrs ==>
       (forall p :: p in MODES && p !in b.mode ==> b.openLocks.Of(p) != Shared) &&
       b.openLocks.readAttr == b.openLocks.changeAttr == b.openLocks.delete == NotRequired)
  }

  predicate RightParams(v: View, k: Kind, b: Body)
    requires Fits(k, b)
  {
    match k
    case Select => b.attrs.present == {Filename} && RightFile(v, b)
    case Create => 0 <= b.override <= 3 && RightCreation(v, b.attrs.present) && RightFile(v, b)
    case Close => 0 <= b.action <= 2
    case Rdattr => NoneForbidden(v, b.names)
    case Chattr => b.attrs.present * b.attrs.novalue == {} && RightChange(v, b.attrs.present)
    case Open => RightOpen(v, b)
    case _ => true
  }

  function Bit(b: bool): nat { if b then 1 else 0 }

  /** A select and a create count once: the code jumps from one into the other. */
  function Count(f: set<Kind>): nat {
    Bit(Select in f || Create in f) + Bit(Close in f) + Bit(Rdattr in f) + Bit(Chattr in f) +
    Bit(Deselect in f) + Bit(Delete in f) + Bit(Open in f)
  }

  /** The parameters of each PDU are in order and its functional unit is there. */
  predicate PartsInOrder(v: View, g: Group)
    requires WellTyped(g)
  {
    forall k :: k in g.parts ==> Permitted(v, k) && RightParams(v, k, g.parts[k])
  }

  /** `figrpchk` */
  predicate Acceptable(v: View, st: State, t: GroupType, g: Group)
    requires WellTyped(g)
  {
    RightState(v, st, t) && RightClass(v, t) && RightFlags(t, g.parts.Keys) &&
    PartsInOrder(v, g) && g.threshold == Count(g.parts.Keys)
  }

  // ----- figrp2pdus -----

  /** The parameters as they are sent: attributes coded, if the encoder does not refuse them. */
  function Coded(b: Body): Body {
    match b
    case File(attrs, access, passwords, locks, override) => FileSent(Codec.Encode(attrs), access, passwords, locks, override)
    case Changes(attrs) => ChangesSent(Codec.Encode(attrs))
    case _ => b
  }

  /** The attributes of a group are not refused. */
  predicate Encodable(g: Group) {
    forall k :: k in g.parts ==> EncodablePart(g.parts[k])
  }

  predicate EncodablePart(b: Body) {
    b.File? || b.Changes? ==> Codec.Encode(b.attrs).Some?
  }

  function Sent(g: Group, k: Kind): Pdu
    requires k in g.parts
  {
    Pdu(true, k, if k == Begin then Threshold(g.threshold) else Coded(g.parts[k]))
  }

  function EmitFrom(g: Group, i: nat): seq<Pdu>
    requires i <= 10
    decreases g, 10 - i
  {
    if i == 10 then []
    else (if Order()[i] in g.parts then [Sent(g, Order()[i])] else []) + EmitFrom(g, i + 1)
  }

  /** The PDUs of a group, in the order of `figrp2pdus`. */
  function Emit(g: Group): seq<Pdu> {
    EmitFrom(g, 0)
  }

  // ----- doPSdata, groups -----

  datatype Scan = Scan(next: set<Kind>, threshold: int, parts: map<Kind, Body>)

  const START := Scan({Begin}, 0, map[])

  /** The PDUs that may follow `k`; `head` says whether a select or create was seen. */
  function Next(request: bool, head: bool, k: Kind): set<Kind> {
    var open := if head then {Open} else {};
    match k
    case Begin => {Select, Create, Close}
    case Select => {Rdattr, Chattr, Open, Deselect, Delete} + (if request then {} else {End})
    case Create => {Rdattr, Chattr, Open, Deselect, Delete} + (if request then {} else {End})
    case Close => {Rdattr, Chattr, Deselect, Delete}
    case Rdattr => {Chattr, Deselect, Delete} + open
    case Chattr => {Deselect, Delete} + open
    case Open => {End}
    case Deselect => {End}
    case Delete => {End}
    case _ => {}
  }

  /** A delete request is let through whatever is expected next. */
  predicate Expected(request: bool, next: set<Kind>, k: Kind) {
    k in next || (request && k == Delete)
  }

  function Admitted(v: View, attrs: set<Attr>): set<Attr> {
    set a | a in attrs && !Forbidden(v, a)
  }

  /** Only what is within the PDU's own set and was negotiated counts as present. */
  function Masked(v: View, a: Codec.Attributes, within: set<Attr>): Codec.Attributes {
    a.(present := Admitted(v, a.present * within))
  }

  function Decoded(coding: Option<Codec.Coding>): Option<Codec.Attributes> {
    if coding.None? then None else Codec.Fpm2attr(coding.value)
  }

  predicate SentFits(k: Kind, b: Body) {
    match k
    case Select => b.FileSent?
    case Create => b.FileSent?
    case Close => b.Action?
    case Rdattr => b.Names?
    case Chattr => b.ChangesSent?
    case Open => b.Opening?
    case _ => b.Plain?
  }

  /** The parameters as the responder stores them; None when it gives up. */
  function Stored(v: View, k: Kind, b: Body): Option<Body>
    requires SentFits(k, b)
  {
    match k
    case Select =>
      var a := Decoded(b.coding);
      if a.None? || b.access == {} then None
      else Some(File(a.value.(present := a.value.present * {Filename}), b.access, Kept(v, b), Held(v, b.locks), b.override))
    case Create =>
      var a := Decoded(b.coding);
      if a.None? || !(KERNEL <= a.value.present) || b.access == {} then None
      else Some(File(Masked(v, a.value, CREATION), b.access, Kept(v, b), Held(v, b.locks), b.override))
    case Rdattr => if b.names == {} then None else Some(Names(Admitted(v, b.names)))
    case Chattr =>
      var a := Decoded(b.coding);
      if a.None? || a.value.present * a.value.novalue != {} then None else Some(Changes(Masked(v, a.value, ALLATTRS)))
    case Open =>
      if b.mode == {} then None
      else Some(Opening(b.mode, b.contents, Held(v, b.openLocks), b.locking && UnitFaduLock in v.units))
    case _ => Some(b)
  }

  function Kept(v: View, b: Body): map<Perm, string>
    requires b.FileSent?
  {
    if Security in v.attrs then Filled(b.passwords) else map[]
  }

  function Held(v: View, locks: Locks): Locks {
    if Storage in v.attrs then locks else NOLOCKS
  }

  /** The answers that say more than that they were given. */
  const TELLING := {Select, Create, Rdattr, Chattr, Open}

  /** What is within the answer's own set of attributes. */
  function Within(k: Kind): set<Attr> {
    if k == Select then {Filename} else if k == Create then CREATION else ALLATTRS
  }

  /** An answer as the initiator keeps it; attributes that cannot be decoded break it. */
  function AnswerTaken(v: View, k: Kind, b: Body): Option<Body>
    requires b.Result?
  {
    if b.coding.None? then (if k in {Select, Create} then None else Some(Answered(b.ok, Codec.NOTHING)))
    else
      match Codec.Fpm2attr(b.coding.value)
      case None => None
      case Some(a) =>
        Some(Answered(b.ok, if k == Select then a.(present := a.present * {Filename}) else Masked(v, a, Within(k))))
  }

  function Received(v: View, p: Pdu): Option<Body> {
    if p.request && p.kind == Begin then (if p.body.Threshold? then Some(Plain) else None)
    else if p.request then (if SentFits(p.kind, p.body) then Stored(v, p.kind, p.body) else None)
    else if p.kind in TELLING then (if p.body.Result? then AnswerTaken(v, p.kind, p.body) else None)
    else Some(Plain)
  }

  /** One turn of the loop over the PDUs, for a grouped PDU. */
  function GroupStep(v: View, s: Scan, p: Pdu): Option<Scan> {
    if p.request == v.initiator || !Expected(p.request, s.next, p.kind) || !Permitted(v, p.kind) then None
    else
      match Received(v, p)
      case None => None
      case Some(b) =>
        Some(Scan(Next(p.request, Select in s.parts || Create in s.parts, p.kind),
                  if p.request && p.kind == Begin then p.body.n else s.threshold,
                  s.parts[p.kind := b]))
  }

  function ScanPdus(v: View, s: Scan, ps: seq<Pdu>): Option<Scan>
    decreases |ps|
  {
    if ps == [] then Some(s)
    else if ps[0].kind !in Order() then None
    else
      match GroupStep(v, s, ps[0])
      case None => None
      case Some(s') => ScanPdus(v, s', ps[1..])
  }

  // ----- doPSdata, the end of a group -----

  /** The state a receiver goes to after a whole group; None is a protocol error. */
  function Concluded(v: View, st: State, group: set<Kind>, s: Scan, count: nat): Option<State> {
    var f := s.parts.Keys;
    if s.next != {} || (!v.initiator && s.threshold != count - 2) then None
    else if Select in f || Create in f then
      if v.initiator then
        if !(f <= group) then None
        else if st == Management then Some(Initialized)
        else if st == BulkBegin then Some(if Succeeded(s) then DataIdle else Initialized)
        else None
      else if st != Initialized then None
      else if Deselect in f || Delete in f then
        if v.service in {Manage, TransferManage, Access} then Some(Management) else None
      else if Open in f && v.service in {Transfer, TransferManage, Access} then Some(BulkBegin)
      else None
    else if Close in f && v.service in {Transfer, TransferManage, Access} then
      if v.initiator then (if st == BulkEnd && f <= group then Some(Initialized) else None)
      else if st == DataIdle then Some(BulkEnd)
      else None
    else None
  }

  /** States that were not reported read as success: the indication starts zeroed. */
  predicate Succeeded(s: Scan) {
    var head := if Select in s.parts then Select else Create;
    (head in s.parts && s.parts[head].Answered? ==> s.parts[head].ok) &&
    (Open in s.parts && s.parts[Open].Answered? ==> s.parts[Open].ok)
  }

  // ----- Responses -----

  /** A reply: its flags, and the states, attributes and open parameters whether or not their flags are set. */
  datatype Reply = Reply(flags: set<Kind>, selectOk: bool, createOk: bool, openOk: bool,
                         contents: Option<nat>, openLocks: Locks,
                         selectAttrs: Codec.Attributes, createAttrs: Codec.Attributes,
                         readAttrs: Codec.Attributes, changeAttrs: Codec.Attributes)

  function AttrsOf(r: Reply, k: Kind): Codec.Attributes {
    match k
    case Select => r.selectAttrs
    case Create => r.createAttrs
    case Rdattr => r.readAttrs
    case Chattr => r.changeAttrs
    case _ => Codec.NOTHING
  }

  const ATTRIBUTED := {Select, Create, Rdattr, Chattr}

  predicate WellTypedReply(r: Reply) {
    forall k :: k in ATTRIBUTED ==> Codec.Whole(AttrsOf(r, k))
  }

  predicate HeadOk(r: Reply) {
    if Select in r.flags then r.selectOk else r.createOk
  }

  /** What is present in the attributes of an answer. */
  predicate RightAnswer(v: View, k: Kind, present: set<Attr>) {
    match k
    case Select => present == {Filename}
    case Create => RightCreation(v, present)
    case Rdattr => NoneForbidden(v, present)
    case Chattr => RightChange(v, present)
    case _ => true
  }

  /** An open is answered with a contents type, and without locks on what it is not for. */
  predicate RightOpened(v: View, r: Reply) {
    r.contents.Some? &&
    (Storage in v.attrs ==> r.openLocks.readAttr == r.openLocks.changeAttr == r.openLocks.delete == NotRequired)
  }

  /** `frgrpchk` */
  predicate ReplyAcceptable(v: View, st: State, group: set<Kind>, t: GroupType, r: Reply) {
    !v.initiator && r.flags <= group &&
    (match t
     case ForManagement => st == Management
     case ForBulkBegin => st == BulkBegin
     case ForBulkEnd => st == BulkEnd) &&
    (Open in r.flags ==> RightOpened(v, r)) &&
    forall k :: k in ATTRIBUTED && k in r.flags ==> RightAnswer(v, k, AttrsOf(r, k).present)
  }

  /** A failed select or create cuts the reply down to itself. */
  function ReplyFlags(r: Reply): set<Kind> {
    if Select in r.flags then (if r.selectOk then r.flags else r.flags * {Begin, Select, End})
    else if Create in r.flags then (if r.createOk then r.flags else r.flags * {Begin, Create, End})
    else r.flags
  }

  /** The attributes of an answer as they are sent; those of read and change answers are left out when none is present. */
  function AnswerCoding(r: Reply, k: Kind): Option<Codec.Coding> {
    if k !in ATTRIBUTED || (k in {Rdattr, Chattr} && AttrsOf(r, k).present == {}) then None
    else Codec.Encode(AttrsOf(r, k))
  }

  /** The attributes of an answer, if it has any, are not refused. */
  predicate EncodableAnswer(r: Reply, k: Kind) {
    k in ATTRIBUTED ==> Codec.Encode(AttrsOf(r, k)).Some?
  }

  /** The attributes of no answer that is sent are refused. */
  predicate EncodableReply(r: Reply) {
    forall k :: k in ReplyFlags(r) ==> EncodableAnswer(r, k)
  }

  function Answer(r: Reply, k: Kind): Pdu {
    Pdu(false, k,
        match k
        case Select => Result(r.selectOk, AnswerCoding(r, k))
        case Create => Result(r.createOk, AnswerCoding(r, k))
        case Rdattr => Result(true, AnswerCoding(r, k))
        case Chattr => Result(true, AnswerCoding(r, k))
        case Open => Result(r.openOk, None)
        case _ => Plain)
  }

  function EmitReplyFrom(r: Reply, i: nat): seq<Pdu>
    requires i <= 10
    decreases r, 10 - i
  {
    if i == 10 then []
    else (if Order()[i] in ReplyFlags(r) then [Answer(r, Order()[i])] else []) + EmitReplyFrom(r, i + 1)
  }

  function EmitReply(r: Reply): seq<Pdu> {
    EmitReplyFrom(r, 0)
  }

  /** Where the responder goes when it has replied. */
  function AfterReply(t: GroupType, r: Reply): State {
    if t == ForBulkBegin && HeadOk(r) && r.openOk then DataIdle else Initialized
  }
}
