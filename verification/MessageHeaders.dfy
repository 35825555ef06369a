/** The header protocol: what senders put on a text message, and what the receiving wrapper reads. */
module MessageHeaders {
  import opened Prelude

  datatype Key =
    | UserTime | DataType | Source | Event | Period
    | ContentId | ContentCreationTime | ContentType | IsXml

  datatype Property = Str(s: string) | Long(n: int) | Int(n: int) | Bool(b: bool)

  datatype Message = Message(text: string, props: map<Key, Property>)

  /** The event kind of a message whose sender names none. */
  const SINGLE := "single"

  // ---------- The receiving side ----------

  /** A property accessor fails when the property is missing or has another type. */
  datatype Access<+T> = Got(value: T) | Missing

  function GetString(m: Message, k: Key): Access<string> {
    if k in m.props && m.props[k].Str? then Got(m.props[k].s) else Missing
  }

  function GetLong(m: Message, k: Key): Access<int> {
    if k in m.props && m.props[k].Long? then Got(m.props[k].n) else Missing
  }

  function GetInt(m: Message, k: Key): Access<int> {
    if k in m.props && m.props[k].Int? then Got(m.props[k].n) else Missing
  }

  function GetBool(m: Message, k: Key): Access<bool> {
    if k in m.props && m.props[k].Bool? then Got(m.props[k].b) else Missing
  }

  predicate IsPeriodic(m: Message) {
    Period in m.props
  }

  predicate IsEventBased(m: Message) {
    Event in m.props
  }

  /** The check that a wrapper makes of every message it is built from. */
  predicate Verifies(m: Message) {
    GetLong(m, UserTime).Got? && GetString(m, DataType).Got? && GetString(m, Source).Got? &&
    (IsPeriodic(m) || IsEventBased(m))
  }

  /** A message is refused exactly when one of these holds of its properties. */
  lemma RefusedIff(m: Message)
    ensures !Verifies(m) <==>
              || UserTime !in m.props || !m.props[UserTime].Long?
              || DataType !in m.props || !m.props[DataType].Str?
              || Source !in m.props || !m.props[Source].Str?
              || (Period !in m.props && Event !in m.props)
  {
  }

  function ContentIdOf(m: Message): Access<string> {
    if ContentId in m.props then GetString(m, ContentId) else Got("")
  }

  function ContentTypeOf(m: Message): Access<string> {
    if ContentType in m.props then GetString(m, ContentType) else Got("")
  }

  function ContentCreationTimeOf(m: Message): Access<int> {
    if ContentCreationTime in m.props then GetLong(m, ContentCreationTime) else Got(-1)
  }

  // ---------- What a message must carry ----------

  /** What the sender itself puts on its messages; `xml` tells an XML sender. */
  datatype Origin = Origin(dataType: string, source: string, xml: bool)

  /** What a caller may say about the content: empty strings and negative times say nothing. */
  datatype Content = Content(id: string, creationTime: int, kind: string)

  datatype Mode = Periodic(period: int) | EventOf(kind: string)

  datatype Sending = Sending(text: string, usertime: int, content: Content, mode: Mode)

  /** The wrapper accepts the message and reads from it exactly what it was sent with. */
  predicate Carries(m: Message, o: Origin, x: Sending) {
    && Verifies(m) && m.text == x.text
    && GetLong(m, UserTime) == Got(x.usertime)
    && GetString(m, DataType) == Got(o.dataType) && GetString(m, Source) == Got(o.source)
    && ContentIdOf(m) == Got(x.content.id) && ContentTypeOf(m) == Got(x.content.kind)
    && ContentCreationTimeOf(m) == Got(if x.content.creationTime < 0 then -1 else x.content.creationTime)
    && (IsXml in m.props <==> o.xml) && (o.xml ==> GetBool(m, IsXml) == Got(true))
    && CarriesMode(m, x.mode)
  }

  predicate CarriesMode(m: Message, mode: Mode) {
    match mode
    case Periodic(p) => GetInt(m, Period) == Got(p) && !IsEventBased(m)
    case EventOf(kind) => GetString(m, Event) == Got(kind) && !IsPeriodic(m)
  }

  /** Readings that agree: the same but for which negative time was given. */
  predicate SameReading(x: Sending, y: Sending) {
    x == y || (x == y.(content := x.content) && x.content == y.content.(creationTime := x.content.creationTime) &&
               x.content.creationTime < 0 && y.content.creationTime < 0)
  }

  /** The header determines what the message was sent with, and by what kind of sender. */
  lemma HeaderDetermines(m: Message, o: Origin, x: Sending, o': Origin, y: Sending)
    requires Carries(m, o, x) && Carries(m, o', y)
    ensures o == o' && SameReading(x, y)
  {
    assert x.mode.Periodic? <==> y.mode.Periodic?;
  }

  // ---------- How messages are put together ----------

  function WithProp(m: Message, k: Key, p: Property): Message {
    m.(props := m.props[k := p])
  }

  /** The base class's step: the properties that every message has. */
  function BaseFill(dataType: string, source: string, m: Message, usertime: int): Message {
    WithProp(WithProp(WithProp(m, DataType, Str(dataType)), Source, Str(source)), UserTime, Long(usertime))
  }

  /** The XML sender's override: the base class's step, and then its own flag. */
  function XmlFill(dataType: string, source: string, m: Message, usertime: int): Message {
    WithProp(BaseFill(dataType, source, m, usertime), IsXml, Bool(true))
  }

  /** What filling must do for a sender of a given origin. */
  function Filled(o: Origin, m: Message, usertime: int): Message {
    if o.xml then XmlFill(o.dataType, o.source, m, usertime) else BaseFill(o.dataType, o.source, m, usertime)
  }

  function WithContent(m: Message, c: Content): Message {
    var m1 := if c.id != "" then WithProp(m, ContentId, Str(c.id)) else m;
    var m2 := if c.creationTime >= 0 then WithProp(m1, ContentCreationTime, Long(c.creationTime)) else m1;
    if c.kind != "" then WithProp(m2, ContentType, Str(c.kind)) else m2
  }

  function WithMode(m: Message, mode: Mode): Message {
    match mode
    case Periodic(p) => WithProp(m, Period, Int(p))
    case EventOf(kind) => WithProp(m, Event, Str(kind))
  }

  function Compose(o: Origin, x: Sending): Message {
    WithMode(WithContent(Filled(o, Message(x.text, map[]), x.usertime), x.content), x.mode)
  }

  function Lookup(m: Message, k: Key): Option<Property> {
    if k in m.props then Some(m.props[k]) else None
  }

  /** The header that a message must have, property by property. */
  function Header(o: Origin, x: Sending, k: Key): Option<Property> {
    match k
    case UserTime => Some(Long(x.usertime))
    case DataType => Some(Str(o.dataType))
    case Source => Some(Str(o.source))
    case Event => if x.mode.EventOf? then Some(Str(x.mode.kind)) else None
    case Period => if x.mode.Periodic? then Some(Int(x.mode.period)) else None
    case ContentId => if x.content.id != "" then Some(Str(x.content.id)) else None
    case ContentCreationTime => if x.content.creationTime >= 0 then Some(Long(x.content.creationTime)) else None
    case ContentType => if x.content.kind != "" then Some(Str(x.content.kind)) else None
    case IsXml => if o.xml then Some(Bool(true)) else None
  }

  lemma FilledHeader(o: Origin, text: string, x: Sending, k: Key)
    ensures Lookup(Filled(o, Message(text, map[]), x.usertime), k) ==
            if k in {UserTime, DataType, Source, IsXml} then Header(o, x, k) else None
  {
  }

  lemma ContentHeader(m: Message, o: Origin, x: Sending, k: Key)
    requires k in {ContentId, ContentCreationTime, ContentType} ==> Lookup(m, k) == None
    ensures Lookup(WithContent(m, x.content), k) ==
            if k in {ContentId, ContentCreationTime, ContentType} then Header(o, x, k) else Lookup(m, k)
  {
  }

  /** A composed message has exactly the header it must have, over all nine properties. */
  lemma ComposedHeader(o: Origin, x: Sending, k: Key)
    ensures Lookup(Compose(o, x), k) == Header(o, x, k)
  {
    hide Filled, WithContent;
    var m := Filled(o, Message(x.text, map[]), x.usertime);
    FilledHeader(o, x.text, x, k);
    ContentHeader(m, o, x, k);
  }

  lemma ComposedText(o: Origin, x: Sending)
    ensures Compose(o, x).text == x.text
  {
  }

  /** For all arguments, a composed message is accepted and says exactly what was sent. */
  lemma ComposedCarries(o: Origin, x: Sending)
    ensures Carries(Compose(o, x), o, x)
  {
    hide Compose;
    var m := Compose(o, x);
    ComposedText(o, x);
    forall k: Key ensures Lookup(m, k) == Header(o, x, k) {
      ComposedHeader(o, x, k);
    }
    assert forall k: Key :: Lookup(m, k) == Header(o, x, k);
    HeaderCarries(m, o, x);
  }

  lemma HeaderCarries(m: Message, o: Origin, x: Sending)
    requires m.text == x.text && forall k: Key :: Lookup(m, k) == Header(o, x, k)
    ensures Carries(m, o, x)
  {
    assert Lookup(m, UserTime) == Some(Long(x.usertime));
    assert Lookup(m, DataType) == Some(Str(o.dataType));
    assert Lookup(m, Source) == Some(Str(o.source));
    assert Lookup(m, Event) == Header(o, x, Event);
    assert Lookup(m, Period) == Header(o, x, Period);
    assert Lookup(m, ContentId) == Header(o, x, ContentId);
    assert Lookup(m, ContentType) == Header(o, x, ContentType);
    assert Lookup(m, ContentCreationTime) == Header(o, x, ContentCreationTime);
    assert Lookup(m, IsXml) == Header(o, x, IsXml);
  }

  /** Which property verification looks at for the mode. */
  function ModeKey(mode: Mode): Key {
    match mode
    case Periodic(_) => Period
    case EventOf(_) => Event
  }

  /** Without one of its properties, a composed message is refused exactly when that is one of four. */
  lemma NeededProperties(o: Origin, x: Sending, k: Key)
    ensures var m := Compose(o, x);
            !Verifies(m.(props := m.props - {k})) <==> k in {UserTime, DataType, Source, ModeKey(x.mode)}
  {
    hide Compose;
    var m := Compose(o, x);
    ComposedHeader(o, x, UserTime);
    ComposedHeader(o, x, DataType);
    ComposedHeader(o, x, Source);
    ComposedHeader(o, x, Period);
    ComposedHeader(o, x, Event);
  }

  // ---------- The sender ----------

  datatype SendError = NotStarted | WrongMode | ConnectionFailed

  ghost predicate SentBy(o: Origin, m: Message) {
    exists x :: Carries(m, o, x)
  }

  class Sender {
    const dataType: string
    const source: string
    /** The slot of the virtual method that fills a message: the class's own step or its override. */
    const fill: (Message, int) -> Message
    /** Which class the object was made of. */
    ghost const xml: bool
    var period: int
    var connectionStarted: bool
    var connectionFailed: bool
    var sent: seq<Message>

    ghost function Identity(): Origin {
      Origin(dataType, source, xml)
    }

    /** Over every history of modes, each message sent is one the wrapper accepts and reads back. */
    ghost predicate Valid()
      reads this
    {
      (forall m, t :: fill(m, t) == Filled(Identity(), m, t)) &&
      forall i :: 0 <= i < |sent| ==> SentBy(Identity(), sent[i])
    }

    /** A plain sender.  A period of zero means event-based; feature senders start with any given period. */
    constructor (dataType: string, source: string, period: int)
      ensures Valid() && !xml && sent == [] && this.dataType == dataType && this.source == source
      ensures this.period == period && !connectionStarted && !connectionFailed
    {
      this.dataType, this.source, this.period := dataType, source, period;
      fill := (m, t) => BaseFill(dataType, source, m, t);
      xml := false;
      connectionStarted, connectionFailed, sent := false, false, [];
    }

    /** An XML sender, event-based at first: its class overrides the filling step. */
    constructor Xml(dataType: string, source: string)
      ensures Valid() && xml && sent == [] && this.dataType == dataType && this.source == source
      ensures period == 0 && !connectionStarted && !connectionFailed
    {
      this.dataType, this.source, this.period := dataType, source, 0;
      fill := (m, t) => XmlFill(dataType, source, m, t);
      xml := true;
      connectionStarted, connectionFailed, sent := false, false, [];
    }

    /** The base class's longer overload: calls the filling step through its slot, then adds the content. */
    method FillMessageProperties(m: Message, usertime: int, content: Content) returns (r: Message)
      requires Valid()
      ensures r == WithContent(Filled(Identity(), m, usertime), content)
    {
      r := fill(m, usertime);
      if content.id != "" {
        r := WithProp(r, ContentId, Str(content.id));
      }
      if content.creationTime >= 0 {
        r := WithProp(r, ContentCreationTime, Long(content.creationTime));
      }
      if content.kind != "" {
        r := WithProp(r, ContentType, Str(content.kind));
      }
    }

    /** Starts the connection; an error of the broker leaves it as it was. */
    method StartConnection(brokerFails: bool) returns (started: bool)
      requires Valid()
      modifies this`connectionStarted
      ensures Valid() && started == !brokerFails
      ensures connectionStarted == (started || old(connectionStarted))
    {
      started := !brokerFails;
      if started {
        connectionStarted := true;
      }
    }

    /** The exception listener: from now on nothing is sent. */
    method OnException()
      requires Valid()
      modifies this`connectionFailed
      ensures Valid() && connectionFailed
    {
      connectionFailed := true;
    }

    method SetPeriodic(p: int) returns (accepted: bool)
      modifies this`period
      ensures (accepted <==> p > 0) && period == if accepted then p else old(period)
    {
      accepted := p > 0;
      if accepted {
        period := p;
      }
    }

    method SetEventBased()
      modifies this`period
      ensures period == 0
    {
      period := 0;
    }

    method Send(ghost x: Sending, m: Message)
      requires Valid() && m == Compose(Identity(), x)
      modifies this`sent
      ensures Valid() && sent == old(sent) + [m] && Carries(m, Identity(), x)
    {
      ComposedCarries(Identity(), x);
      assert SentBy(Identity(), m);
      sent := sent + [m];
    }

    /** Sends in the sender's own mode: periodic, or as a single event. */
    method SendTextMessage(text: string, usertime: int, content: Content) returns (error: Option<SendError>)
      requires Valid()
      modifies this`sent
      ensures Valid()
      ensures error.None? <==> connectionStarted && !connectionFailed
      ensures error == Some(NotStarted) <==> !connectionStarted
      ensures error.Some? ==> error.value in {NotStarted, ConnectionFailed} && sent == old(sent)
      ensures var mode := if period != 0 then Periodic(period) else EventOf("single");
              error.None? ==>
                && |sent| == |old(sent)| + 1 && old(sent) <= sent
                && Carries(sent[|old(sent)|], Identity(), Sending(text, usertime, content, mode))
    {
      if !connectionStarted {
        return Some(NotStarted);
      }
      if connectionFailed {
        return Some(ConnectionFailed);
      }
      var m := FillMessageProperties(Message(text, map[]), usertime, content);
      if period != 0 {
        m := WithProp(m, Period, Int(period));
      } else {
        m := WithProp(m, Event, Str(SINGLE));
      }
      Send(Sending(text, usertime, content, if period != 0 then Periodic(period) else EventOf(SINGLE)), m);
      error := None;
    }

    /** Sends an event of a given kind: refused in periodic mode. */
    method SendEventMessage(text: string, usertime: int, kind: string, content: Content)
        returns (error: Option<SendError>)
      requires Valid()
      modifies this`sent
      ensures Valid()
      ensures error.None? <==> connectionStarted && period == 0 && !connectionFailed
      ensures error == Some(NotStarted) <==> !connectionStarted
      ensures error == Some(WrongMode) <==> connectionStarted && period != 0
      ensures error.Some? ==> sent == old(sent)
      ensures error.None? ==>
                && |sent| == |old(sent)| + 1 && old(sent) <= sent
                && Carries(sent[|old(sent)|], Identity(), Sending(text, usertime, content, EventOf(kind)))
    {
      if !connectionStarted {
        return Some(NotStarted);
      }
      if period != 0 {
        return Some(WrongMode);
      }
      if connectionFailed {
        return Some(ConnectionFailed);
      }
      var m := FillMessageProperties(Message(text, map[]), usertime, content);
      m := WithProp(m, Event, Str(kind));
      Send(Sending(text, usertime, content, EventOf(kind)), m);
      error := None;
    }

    /** Sends a serialised document as an event; an XML sender checks its mode before its connection. */
    method SendXml(document: string, usertime: int, kind: string, content: Content) returns (error: Option<SendError>)
      requires Valid() && xml
      modifies this`sent
      ensures Valid()
      ensures error.None? <==> connectionStarted && period == 0 && !connectionFailed
      ensures error == Some(WrongMode) <==> period != 0
      ensures error == Some(NotStarted) <==> period == 0 && !connectionStarted
      ensures error.Some? ==> sent == old(sent)
      ensures error.None? ==>
                && |sent| == |old(sent)| + 1 && old(sent) <= sent
                && Carries(sent[|old(sent)|], Identity(), Sending(document, usertime, content, EventOf(kind)))
                && GetBool(sent[|old(sent)|], IsXml) == Got(true)
    {
      if period != 0 {
        return Some(WrongMode);
      }
      if !connectionStarted {
        return Some(NotStarted);
      }
      error := SendEventMessage(document, usertime, kind, content);
    }
  }
}
