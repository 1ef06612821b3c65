/** The short-code pairing ceremony: two scripts that meet over the lanes of their code.
    Any number of ceremonies, on codes of their own, run over one rendezvous. */
module Pairing {
  import opened Foundations
  import opened Lanes
  import Material
  import DeviceStore

  // ---- ideal SPAKE2 and binders ----

  datatype Blob = Blob(password: string, nonce: nat)

  /** Both ends compute the same secret exactly when they used the same password. */
  datatype Secret = Secret(mine: string, theirs: string, nonces: set<nat>)
  datatype Binder = Binder(secret: Secret, material: Bytes)

  function Finish(password: string, nonce: nat, peer: Blob): Secret
  {
    Secret(password, peer.password, {nonce, peer.nonce})
  }

  datatype Party = Party(id: DeviceId, name: Bytes, capabilities: seq<DeviceStore.Capability>, nonce: nat)

  /** An identity as sent: claimed id, name, key, capabilities, signature and binder. */
  datatype Card = Card(id: DeviceId, name: Bytes, key: Key32, capabilities: seq<DeviceStore.Capability>,
                       signature: Material.Signature, binder: Binder)

  datatype Message = Spake(blob: Blob) | IdentityOffer(card: Card) | IdentityAccept(card: Card) | Reject(reason: string)

  function CardMaterial(id: DeviceId, name: Bytes, key: Key32): Bytes
  {
    id.bytes + name + key
  }

  /** The card a party can make for an id it claims: it can sign with its own key only. */
  function CardClaiming(claimed: DeviceId, p: Party, secret: Secret): Card
  {
    var material := CardMaterial(claimed, p.name, p.id.bytes);
    Card(claimed, p.name, p.id.bytes, p.capabilities, Material.Signature(p.id, material), Binder(secret, material))
  }

  function CardOf(p: Party, secret: Secret): Card
  {
    CardClaiming(p.id, p, secret)
  }

  /** The checks a host makes of an accept; a guest makes the first two of an offer. */
  predicate BoundAndSigned(card: Card, secret: Secret)
  {
    var material := CardMaterial(card.id, card.name, card.key);
    card.binder == Binder(secret, material) && Material.Verify(DeviceId(card.key), material, card.signature)
  }

  // ---- the two scripts ----

  datatype Peer = Peer(id: DeviceId, name: Bytes, capabilities: seq<DeviceStore.Capability>)
  datatype Failure = WrongMessage | BadCard | PeerRejected

  datatype Host =
    | HOpen | HSendSpake | HRecvSpake | HAwaitSpake(ticket: nat)
    | HSendOffer(secret: Secret) | HRecvAccept(secret: Secret) | HAwaitAccept(secret: Secret, ticket: nat)
    | HStore(secret: Secret, peer: Peer) | HDone(secret: Secret, peer: Peer) | HFailed(why: Failure)

  datatype Guest =
    | GOpen | GSendSpake | GRecvSpake | GAwaitSpake(ticket: nat)
    | GRecvOffer(secret: Secret) | GAwaitOffer(secret: Secret, ticket: nat) | GSendAccept(secret: Secret, peer: Peer)
    | GStore(secret: Secret, peer: Peer) | GDone(secret: Secret, peer: Peer) | GFailed(why: Failure)

  /** `hostHeld` and `guestHeld` are the trusted peers in the store as each script read it when it
      began: what it writes at the end is that and the new peer. */
  datatype Ceremony = Ceremony(hostParty: Party, guestParty: Party, host: Host, guest: Guest,
                               hostHeld: set<DeviceId>, guestHeld: set<DeviceId>)

  /** One of the two scripts of a ceremony. */
  datatype End = End(code: string, asHost: bool)

  /** `stores` are the trusted peers of each device; `last` who wrote each store last. */
  datatype State = State(
    boxes: map<string, Duplex<Message>>,
    ceremonies: map<string, Ceremony>,
    stores: map<DeviceId, set<DeviceId>>,
    last: map<DeviceId, End>
  )

  function HostOnSpake(code: string, p: Party, m: Message): Host
  {
    match m
    case Spake(blob) => HSendOffer(Finish(code, p.nonce, blob))
    case _ => HFailed(WrongMessage)
  }

  function HostOnAccept(secret: Secret, m: Message): Host
  {
    match m
    case IdentityAccept(card) =>
      if BoundAndSigned(card, secret) && card.key == card.id.bytes
      then HStore(secret, Peer(card.id, card.name, card.capabilities)) else HFailed(BadCard)
    case Reject(_) => HFailed(PeerRejected)
    case _ => HFailed(WrongMessage)
  }

  function GuestOnSpake(code: string, p: Party, m: Message): Guest
  {
    match m
    case Spake(blob) => GRecvOffer(Finish(code, p.nonce, blob))
    case _ => GFailed(WrongMessage)
  }

  function GuestOnOffer(secret: Secret, m: Message): Guest
  {
    match m
    case IdentityOffer(card) =>
      if BoundAndSigned(card, secret) then GSendAccept(secret, Peer(card.id, card.name, card.capabilities))
      else GFailed(BadCard)
    case _ => GFailed(WrongMessage)
  }

  predicate HostEnabled(c: Ceremony, d: Duplex<Message>)
  {
    match c.host
    case HAwaitSpake(t) => t in d.g2h.got
    case HAwaitAccept(_, t) => t in d.g2h.got
    case HDone(_, _) => false
    case HFailed(_) => false
    case _ => true
  }

  predicate GuestEnabled(c: Ceremony, d: Duplex<Message>)
  {
    match c.guest
    case GAwaitSpake(t) => t in d.h2g.got
    case GAwaitOffer(_, t) => t in d.h2g.got
    case GDone(_, _) => false
    case GFailed(_) => false
    case _ => true
  }

  /** What the script does next: a call on the rendezvous, or none. */
  function HostCall(code: string, c: Ceremony): Option<Call<Message>>
  {
    match c.host
    case HSendSpake => Some(Send(code, true, Spake(Blob(code, c.hostParty.nonce))))
    case HRecvSpake => Some(Recv(code, true))
    case HSendOffer(secret) => Some(Send(code, true, IdentityOffer(CardOf(c.hostParty, secret))))
    case HRecvAccept(_) => Some(Recv(code, true))
    case _ => None
  }

  function GuestCall(code: string, c: Ceremony): Option<Call<Message>>
  {
    match c.guest
    case GSendSpake => Some(Send(code, false, Spake(Blob(code, c.guestParty.nonce))))
    case GRecvSpake => Some(Recv(code, false))
    case GRecvOffer(_) => Some(Recv(code, false))
    case GSendAccept(secret, _) => Some(Send(code, false, IdentityAccept(CardOf(c.guestParty, secret))))
    case _ => None
  }

  function NextHost(code: string, c: Ceremony, d: Duplex<Message>): Host
    requires HostEnabled(c, d)
  {
    match c.host
    case HOpen => HSendSpake
    case HSendSpake => HRecvSpake
    case HRecvSpake => HAwaitSpake(d.g2h.issued)
    case HAwaitSpake(t) => HostOnSpake(code, c.hostParty, d.g2h.got[t])
    case HSendOffer(secret) => HRecvAccept(secret)
    case HRecvAccept(secret) => HAwaitAccept(secret, d.g2h.issued)
    case HAwaitAccept(secret, t) => HostOnAccept(secret, d.g2h.got[t])
    case HStore(secret, peer) => HDone(secret, peer)
  }

  function NextGuest(code: string, c: Ceremony, d: Duplex<Message>): Guest
    requires GuestEnabled(c, d)
  {
    match c.guest
    case GOpen => GSendSpake
    case GSendSpake => GRecvSpake
    case GRecvSpake => GAwaitSpake(d.h2g.issued)
    case GAwaitSpake(t) => GuestOnSpake(code, c.guestParty, d.h2g.got[t])
    case GRecvOffer(secret) => GAwaitOffer(secret, d.h2g.issued)
    case GAwaitOffer(secret, t) => GuestOnOffer(secret, d.h2g.got[t])
    case GSendAccept(secret, peer) => GStore(secret, peer)
    case GStore(secret, peer) => GDone(secret, peer)
  }

  function Peers(stores: map<DeviceId, set<DeviceId>>, at: DeviceId): set<DeviceId>
  {
    if at in stores then stores[at] else {}
  }

  /** One step of one script of one ceremony. */
  ghost predicate Enabled(s: State, step: End)
  {
    && step.code in s.ceremonies
    && var c, d := s.ceremonies[step.code], Box(s.boxes, step.code);
       if step.asHost then HostEnabled(c, d) else GuestEnabled(c, d)
  }

  /** The ceremony after a step of its host: reading the store is the first. */
  function HostTurn(code: string, c: Ceremony, d: Duplex<Message>, peers: set<DeviceId>): Ceremony
    requires HostEnabled(c, d)
  {
    c.(host := NextHost(code, c, d), hostHeld := if c.host.HOpen? then peers else c.hostHeld)
  }

  function GuestTurn(code: string, c: Ceremony, d: Duplex<Message>, peers: set<DeviceId>): Ceremony
    requires GuestEnabled(c, d)
  {
    c.(guest := NextGuest(code, c, d), guestHeld := if c.guest.GOpen? then peers else c.guestHeld)
  }

  ghost function Next(s: State, step: End): State
    requires Enabled(s, step)
  {
    var code, c := step.code, s.ceremonies[step.code];
    var d := Box(s.boxes, code);
    if step.asHost then
      var call, me := HostCall(code, c), c.hostParty.id;
      State(if call.Some? then Serve(s.boxes, call.value) else s.boxes,
            s.ceremonies[code := HostTurn(code, c, d, Peers(s.stores, me))],
            if c.host.HStore? then s.stores[me := c.hostHeld + {c.host.peer.id}] else s.stores,
            if c.host.HStore? then s.last[me := step] else s.last)
    else
      var call, me := GuestCall(code, c), c.guestParty.id;
      State(if call.Some? then Serve(s.boxes, call.value) else s.boxes,
            s.ceremonies[code := GuestTurn(code, c, d, Peers(s.stores, me))],
            if c.guest.GStore? then s.stores[me := c.guestHeld + {c.guest.peer.id}] else s.stores,
            if c.guest.GStore? then s.last[me := step] else s.last)
  }

  ghost predicate Initial(s: State)
  {
    s.boxes == map[] && s.last == map[] && forall code :: code in s.ceremonies ==>
      s.ceremonies[code].host == HOpen && s.ceremonies[code].guest == GOpen
  }

  // ---- what holds at every moment of a ceremony ----

  function Shared(code: string, c: Ceremony): Secret
  {
    Secret(code, code, {c.hostParty.nonce, c.guestParty.nonce})
  }

  function HostSent(code: string, c: Ceremony): seq<Message>
  {
    var spake := Spake(Blob(code, c.hostParty.nonce));
    match c.host
    case HOpen => []
    case HSendSpake => []
    case HRecvSpake => [spake]
    case HAwaitSpake(_) => [spake]
    case HSendOffer(_) => [spake]
    case _ => [spake, IdentityOffer(CardOf(c.hostParty, Shared(code, c)))]
  }

  function GuestSent(code: string, c: Ceremony): seq<Message>
  {
    var spake := Spake(Blob(code, c.guestParty.nonce));
    match c.guest
    case GOpen => []
    case GSendSpake => []
    case GStore(_, _) => [spake, IdentityAccept(CardOf(c.guestParty, Shared(code, c)))]
    case GDone(_, _) => [spake, IdentityAccept(CardOf(c.guestParty, Shared(code, c)))]
    case _ => [spake]
  }

  function PeerOf(p: Party): Peer
  {
    Peer(p.id, p.name, p.capabilities)
  }

  /** Where the host is: what it has asked for, and that what it holds is right. */
  ghost predicate HostOnTrack(code: string, c: Ceremony, issued: nat)
  {
    var secret, peer := Shared(code, c), PeerOf(c.guestParty);
    match c.host
    case HOpen => issued == 0
    case HSendSpake => issued == 0
    case HRecvSpake => issued == 0
    case HAwaitSpake(t) => issued == 1 && t == 0
    case HSendOffer(s) => issued == 1 && s == secret
    case HRecvAccept(s) => issued == 1 && s == secret
    case HAwaitAccept(s, t) => issued == 2 && t == 1 && s == secret
    case HStore(s, p) => issued == 2 && s == secret && p == peer
    case HDone(s, p) => issued == 2 && s == secret && p == peer
    case HFailed(_) => false
  }

  ghost predicate GuestOnTrack(code: string, c: Ceremony, issued: nat)
  {
    var secret, peer := Shared(code, c), PeerOf(c.hostParty);
    match c.guest
    case GOpen => issued == 0
    case GSendSpake => issued == 0
    case GRecvSpake => issued == 0
    case GAwaitSpake(t) => issued == 1 && t == 0
    case GRecvOffer(s) => issued == 1 && s == secret
    case GAwaitOffer(s, t) => issued == 2 && t == 1 && s == secret
    case GSendAccept(s, p) => issued == 2 && s == secret && p == peer
    case GStore(s, p) => issued == 2 && s == secret && p == peer
    case GDone(s, p) => issued == 2 && s == secret && p == peer
    case GFailed(_) => false
  }

  /** One role's half: its lane carries what it has sent, and it is where it should be. */
  ghost predicate HostSide(code: string, c: Ceremony, d: Duplex<Message>)
  {
    InOrder(d.h2g, HostSent(code, c)) && d.h2g.abandoned == {} && HostOnTrack(code, c, d.g2h.issued)
  }

  ghost predicate GuestSide(code: string, c: Ceremony, d: Duplex<Message>)
  {
    InOrder(d.g2h, GuestSent(code, c)) && d.g2h.abandoned == {} && GuestOnTrack(code, c, d.h2g.issued)
  }

  ghost predicate OnTrack(code: string, c: Ceremony, d: Duplex<Message>)
  {
    HostSide(code, c, d) && GuestSide(code, c, d)
  }

  function Me(s: State, e: End): DeviceId
    requires e.code in s.ceremonies
  {
    var c := s.ceremonies[e.code];
    if e.asHost then c.hostParty.id else c.guestParty.id
  }

  function Other(s: State, e: End): DeviceId
    requires e.code in s.ceremonies
  {
    Me(s, End(e.code, !e.asHost))
  }

  function Held(s: State, e: End): set<DeviceId>
    requires e.code in s.ceremonies
  {
    var c := s.ceremonies[e.code];
    if e.asHost then c.hostHeld else c.guestHeld
  }

  predicate Done(s: State, e: End)
    requires e.code in s.ceremonies
  {
    var c := s.ceremonies[e.code];
    if e.asHost then c.host.HDone? else c.guest.GDone?
  }

  /** The script is at the step that writes its store. */
  predicate Storing(s: State, e: End)
    requires e.code in s.ceremonies
  {
    var c := s.ceremonies[e.code];
    if e.asHost then c.host.HStore? else c.guest.GStore?
  }

  /** A store that was written is what its last writer had read, and that writer's peer; every
      script that is done has written. */
  ghost predicate StoresOnTrack(s: State)
  {
    && (forall a :: a in s.last ==> WrittenBy(s, a, s.last[a]))
    && (forall e: End :: e.code in s.ceremonies && Done(s, e) ==> Me(s, e) in s.last)
  }

  ghost predicate WrittenBy(s: State, a: DeviceId, e: End)
  {
    && e.code in s.ceremonies && Done(s, e) && Me(s, e) == a
    && a in s.stores && s.stores[a] == Held(s, e) + {Other(s, e)}
  }

  ghost predicate AllOnTrack(s: State)
  {
    && (forall code :: code in s.ceremonies ==> OnTrack(code, s.ceremonies[code], Box(s.boxes, code)))
    && StoresOnTrack(s)
  }

  /** The card either end makes is accepted by the other, and yields the party as it is. */
  lemma CardsCheck(p: Party, secret: Secret)
    ensures HostOnAccept(secret, IdentityAccept(CardOf(p, secret))) == HStore(secret, PeerOf(p))
    ensures GuestOnOffer(secret, IdentityOffer(CardOf(p, secret))) == GSendAccept(secret, PeerOf(p))
  {
  }

  /** A card's bytes say id, name and key. */
  lemma CardMaterialInjective(id1: DeviceId, name1: Bytes, key1: Key32, id2: DeviceId, name2: Bytes, key2: Key32)
    ensures CardMaterial(id1, name1, key1) == CardMaterial(id2, name2, key2) <==> id1 == id2 && name1 == name2 && key1 == key2
  {
    if CardMaterial(id1, name1, key1) == CardMaterial(id2, name2, key2) {
      assert |name1| == |name2|;
      SplitEqual(id1.bytes + name1, key1, id2.bytes + name2, key2);
      SplitEqual(id1.bytes, name1, id2.bytes, name2);
    }
  }

  /** Two ends come to the same secret exactly when they used the same password. */
  lemma SameSecretIff(pw1: string, n1: nat, pw2: string, n2: nat)
    ensures Finish(pw1, n1, Blob(pw2, n2)) == Finish(pw2, n2, Blob(pw1, n1)) <==> pw1 == pw2
  {
    assert {n1, n2} == {n2, n1};
  }

  /** So with an end that used another code nobody gets past the cards. */
  lemma WrongCodeFails(pw1: string, n1: nat, pw2: string, n2: nat, p: Party)
    requires pw1 != pw2
    ensures HostOnAccept(Finish(pw1, n1, Blob(pw2, n2)), IdentityAccept(CardOf(p, Finish(pw2, n2, Blob(pw1, n1))))) == HFailed(BadCard)
    ensures GuestOnOffer(Finish(pw1, n1, Blob(pw2, n2)), IdentityOffer(CardOf(p, Finish(pw2, n2, Blob(pw1, n1))))) == GFailed(BadCard)
  {
    SameSecretIff(pw1, n1, pw2, n2);
  }

  /** The host takes exactly the cards that a party who knows the secret made for itself. */
  lemma HostTakesIff(card: Card, secret: Secret)
    ensures HostOnAccept(secret, IdentityAccept(card)) == HStore(secret, Peer(card.id, card.name, card.capabilities)) <==>
      exists p :: card == CardOf(p, secret)
    ensures HostOnAccept(secret, IdentityAccept(card)).HStore? || HostOnAccept(secret, IdentityAccept(card)) == HFailed(BadCard)
  {
    if BoundAndSigned(card, secret) && card.key == card.id.bytes {
      assert card == CardOf(Party(card.id, card.name, card.capabilities, 0), secret);
    }
  }

  /** The guest takes exactly the cards that a party who knows the secret made and signed with
      the key on the card, whatever id they claim: it does not compare the two. So it takes one
      more than the host would exactly when the claimed id is not the key. */
  lemma GuestTakesIff(card: Card, secret: Secret)
    ensures GuestOnOffer(secret, IdentityOffer(card)) == GSendAccept(secret, Peer(card.id, card.name, card.capabilities)) <==>
      exists p :: card == CardClaiming(card.id, p, secret)
    ensures GuestOnOffer(secret, IdentityOffer(card)).GSendAccept? ==>
      (HostOnAccept(secret, IdentityAccept(card)).HStore? <==> card.key == card.id.bytes)
    ensures GuestOnOffer(secret, IdentityOffer(card)).GSendAccept? || GuestOnOffer(secret, IdentityOffer(card)) == GFailed(BadCard)
  {
    if BoundAndSigned(card, secret) {
      assert card == CardClaiming(card.id, Party(DeviceId(card.key), card.name, card.capabilities, 0), secret);
    }
  }

  ghost function BoxAfter(d: Duplex<Message>, call: Option<Call<Message>>): Duplex<Message>
  {
    if call.Some? then ServeBox(d, call.value) else d
  }

  /** A host's step keeps both halves right and leaves one step less to do. */
  ghost predicate HostMoved(code: string, c: Ceremony, d: Duplex<Message>, peers: set<DeviceId>)
    requires HostEnabled(c, d)
  {
    var c', d' := HostTurn(code, c, d, peers), BoxAfter(d, HostCall(code, c));
    && HostSide(code, c', d') && GuestSide(code, c', d')
    && HostWork(c'.host) == HostWork(c.host) - 1
    && (c'.host.HDone? <==> c.host.HStore?) && (c.host.HStore? ==> c.host.peer.id == c.guestParty.id)
  }

  lemma HostSends(code: string, c: Ceremony, d: Duplex<Message>, peers: set<DeviceId>)
    requires HostSide(code, c, d) && GuestSide(code, c, d) && HostEnabled(c, d)
    requires c.host.HSendSpake? || c.host.HSendOffer?
    ensures HostMoved(code, c, d, peers)
  {
    hide InOrder, CardOf, CardClaiming, CardMaterial, Push, TakeOrWait;
    var m := HostCall(code, c).value.m;
    PushKeepsOrder(d.h2g, HostSent(code, c), m);
    assert [] + [m] == [m];
    assert HostSent(code, c) + [m] == HostSent(code, HostTurn(code, c, d, peers));
  }

  lemma HostAsks(code: string, c: Ceremony, d: Duplex<Message>, peers: set<DeviceId>)
    requires HostSide(code, c, d) && GuestSide(code, c, d) && HostEnabled(c, d)
    requires c.host.HRecvSpake? || c.host.HRecvAccept?
    ensures HostMoved(code, c, d, peers)
  {
    hide InOrder, CardOf, CardClaiming, CardMaterial, Push, TakeOrWait;
    TakeKeepsOrder(d.g2h, GuestSent(code, c));
  }

  lemma HostReads(code: string, c: Ceremony, d: Duplex<Message>, peers: set<DeviceId>)
    requires HostSide(code, c, d) && GuestSide(code, c, d) && HostEnabled(c, d)
    requires c.host.HAwaitSpake? || c.host.HAwaitAccept?
    ensures HostMoved(code, c, d, peers)
  {
    hide InOrder, CardOf, CardClaiming, CardMaterial, Push, TakeOrWait;
    GotInOrder(d.g2h, GuestSent(code, c), c.host.ticket);
    CardsCheck(c.guestParty, Shared(code, c));
  }

  lemma {:induction false} HostMoves(code: string, c: Ceremony, d: Duplex<Message>, peers: set<DeviceId>)
    requires HostSide(code, c, d) && GuestSide(code, c, d) && HostEnabled(c, d)
    ensures HostMoved(code, c, d, peers)
  {
    match c.host
    case HSendSpake => HostSends(code, c, d, peers);
    case HSendOffer(_) => HostSends(code, c, d, peers);
    case HRecvSpake => HostAsks(code, c, d, peers);
    case HRecvAccept(_) => HostAsks(code, c, d, peers);
    case HAwaitSpake(_) => HostReads(code, c, d, peers);
    case HAwaitAccept(_, _) => HostReads(code, c, d, peers);
    case _ =>
  }

  ghost predicate GuestMoved(code: string, c: Ceremony, d: Duplex<Message>, peers: set<DeviceId>)
    requires GuestEnabled(c, d)
  {
    var c', d' := GuestTurn(code, c, d, peers), BoxAfter(d, GuestCall(code, c));
    && HostSide(code, c', d') && GuestSide(code, c', d')
    && GuestWork(c'.guest) == GuestWork(c.guest) - 1
    && (c'.guest.GDone? <==> c.guest.GStore?) && (c.guest.GStore? ==> c.guest.peer.id == c.hostParty.id)
  }

  lemma GuestSends(code: string, c: Ceremony, d: Duplex<Message>, peers: set<DeviceId>)
    requires HostSide(code, c, d) && GuestSide(code, c, d) && GuestEnabled(c, d)
    requires c.guest.GSendSpake? || c.guest.GSendAccept?
    ensures GuestMoved(code, c, d, peers)
  {
    hide InOrder, CardOf, CardClaiming, CardMaterial, Push, TakeOrWait;
    var m := GuestCall(code, c).value.m;
    PushKeepsOrder(d.g2h, GuestSent(code, c), m);
    assert [] + [m] == [m];
    assert GuestSent(code, c) + [m] == GuestSent(code, GuestTurn(code, c, d, peers));
  }

  lemma GuestAsks(code: string, c: Ceremony, d: Duplex<Message>, peers: set<DeviceId>)
    requires HostSide(code, c, d) && GuestSide(code, c, d) && GuestEnabled(c, d)
    requires c.guest.GRecvSpake? || c.guest.GRecvOffer?
    ensures GuestMoved(code, c, d, peers)
  {
    hide InOrder, CardOf, CardClaiming, CardMaterial, Push, TakeOrWait;
    TakeKeepsOrder(d.h2g, HostSent(code, c));
  }

  lemma GuestReads(code: string, c: Ceremony, d: Duplex<Message>, peers: set<DeviceId>)
    requires HostSide(code, c, d) && GuestSide(code, c, d) && GuestEnabled(c, d)
    requires c.guest.GAwaitSpake? || c.guest.GAwaitOffer?
    ensures GuestMoved(code, c, d, peers)
  {
    hide InOrder, CardOf, CardClaiming, CardMaterial, Push, TakeOrWait;
    GotInOrder(d.h2g, HostSent(code, c), c.guest.ticket);
    CardsCheck(c.hostParty, Shared(code, c));
    assert {c.guestParty.nonce, c.hostParty.nonce} == {c.hostParty.nonce, c.guestParty.nonce};
  }

  lemma {:induction false} GuestMoves(code: string, c: Ceremony, d: Duplex<Message>, peers: set<DeviceId>)
    requires HostSide(code, c, d) && GuestSide(code, c, d) && GuestEnabled(c, d)
    ensures GuestMoved(code, c, d, peers)
  {
    match c.guest
    case GSendSpake => GuestSends(code, c, d, peers);
    case GSendAccept(_, _) => GuestSends(code, c, d, peers);
    case GRecvSpake => GuestAsks(code, c, d, peers);
    case GRecvOffer(_) => GuestAsks(code, c, d, peers);
    case GAwaitSpake(_) => GuestReads(code, c, d, peers);
    case GAwaitOffer(_, _) => GuestReads(code, c, d, peers);
    case _ =>
  }

  /** What a step does to its own ceremony, its box and what is left to do. */
  lemma OwnTurn(s: State, step: End)
    requires AllOnTrack(s) && Enabled(s, step)
    ensures var s', code := Next(s, step), step.code;
      && code in s'.ceremonies && OnTrack(code, s'.ceremonies[code], Box(s'.boxes, code))
      && Work(s', code) == Work(s, code) - 1
      && Me(s', step) == Me(s, step) && Other(s', step) == Other(s, step)
      && (Done(s', step) <==> Storing(s, step))
      && Done(s', End(code, !step.asHost)) == Done(s, End(code, !step.asHost))
      && Held(s', End(code, !step.asHost)) == Held(s, End(code, !step.asHost))
      && (Storing(s, step) ==> Held(s', step) == Held(s, step))
  {
    hide HostSide, GuestSide;
    var code := step.code;
    var c, d, s' := s.ceremonies[code], Box(s.boxes, code), Next(s, step);
    assert OnTrack(code, c, d);
    if step.asHost {
      HostMoves(code, c, d, Peers(s.stores, c.hostParty.id));
      assert Box(s'.boxes, code) == BoxAfter(d, HostCall(code, c));
    } else {
      GuestMoves(code, c, d, Peers(s.stores, c.guestParty.id));
      assert Box(s'.boxes, code) == BoxAfter(d, GuestCall(code, c));
    }
  }

  lemma CallsStayHome(code: string, c: Ceremony)
    ensures HostCall(code, c).Some? ==> HostCall(code, c).value.code == code
    ensures GuestCall(code, c).Some? ==> GuestCall(code, c).value.code == code
  {
  }

  lemma OthersWait(s: State, step: End)
    requires Enabled(s, step)
    ensures var s' := Next(s, step);
      && s'.ceremonies.Keys == s.ceremonies.Keys
      && (forall x :: x in s.ceremonies && x != step.code ==>
            s'.ceremonies[x] == s.ceremonies[x] && Box(s'.boxes, x) == Box(s.boxes, x))
  {
    CallsStayHome(step.code, s.ceremonies[step.code]);
    hide HostTurn, GuestTurn, HostCall, GuestCall, ServeBox;
  }

  lemma StoringKnowsPeer(code: string, c: Ceremony, d: Duplex<Message>)
    requires OnTrack(code, c, d)
    ensures c.host.HStore? ==> c.host.peer.id == c.guestParty.id
    ensures c.guest.GStore? ==> c.guest.peer.id == c.hostParty.id
  {
    hide InOrder;
  }

  /** Only storing writes a store, and it writes what was held and the peer. */
  lemma StoreWrites(s: State, step: End)
    requires AllOnTrack(s) && Enabled(s, step)
    ensures var s', me := Next(s, step), Me(s, step);
      if Storing(s, step)
      then s'.stores == s.stores[me := Held(s, step) + {Other(s, step)}] && s'.last == s.last[me := step]
      else s'.stores == s.stores && s'.last == s.last
  {
    StoringKnowsPeer(step.code, s.ceremonies[step.code], Box(s.boxes, step.code));
    hide OnTrack, StoresOnTrack, AllOnTrack, HostCall, GuestCall, HostTurn, GuestTurn, Serve;
  }

  lemma DoneIsOver(s: State, e: End)
    requires e.code in s.ceremonies && Done(s, e)
    ensures !Enabled(s, e)
  {
  }

  /** Who is who never changes, and a step leaves every other end as it was. */
  lemma EndsStay(s: State, step: End, e: End)
    requires AllOnTrack(s) && Enabled(s, step) && e.code in s.ceremonies
    ensures var s' := Next(s, step);
      && e.code in s'.ceremonies && Me(s', e) == Me(s, e) && Other(s', e) == Other(s, e)
      && (e != step ==> Done(s', e) == Done(s, e) && Held(s', e) == Held(s, e))
  {
    OwnTurn(s, step);
    OthersWait(s, step);
    hide Next, Enabled, OnTrack, AllOnTrack, StoresOnTrack;
  }

  lemma WasWritten(s: State)
    requires AllOnTrack(s)
    ensures forall a :: a in s.last ==> WrittenBy(s, a, s.last[a])
    ensures forall e: End :: e.code in s.ceremonies && Done(s, e) ==> Me(s, e) in s.last
  {
    hide OnTrack, WrittenBy, Done, Me;
  }

  lemma WrittenStays(s: State, step: End, a: DeviceId, e: End)
    requires AllOnTrack(s) && Enabled(s, step) && WrittenBy(s, a, e)
    requires a in Next(s, step).stores && Next(s, step).stores[a] == s.stores[a]
    ensures WrittenBy(Next(s, step), a, e)
  {
    if e == step { DoneIsOver(s, e); }
    EndsStay(s, step, e);
    hide Next, Enabled, OnTrack, AllOnTrack, Me, Other, Held, Done;
  }

  lemma StoredIsWritten(s: State, step: End)
    requires AllOnTrack(s) && Enabled(s, step) && Storing(s, step)
    ensures WrittenBy(Next(s, step), Me(s, step), step)
  {
    OwnTurn(s, step);
    StoreWrites(s, step);
    hide Next, Enabled, OnTrack, AllOnTrack, Me, Other, Held, Done, Storing;
  }

  lemma LastStays(s: State, step: End, a: DeviceId)
    requires AllOnTrack(s) && Enabled(s, step) && a in Next(s, step).last
    ensures WrittenBy(Next(s, step), a, Next(s, step).last[a])
  {
    WasWritten(s);
    StoreWrites(s, step);
    hide Next, Enabled, OnTrack, AllOnTrack, Me, Other, Held, Done, Storing;
    if Storing(s, step) && a == Me(s, step) {
      StoredIsWritten(s, step);
    } else {
      WrittenStays(s, step, a, s.last[a]);
    }
  }

  lemma DoneHasWritten(s: State, step: End, e: End)
    requires AllOnTrack(s) && Enabled(s, step) && e.code in Next(s, step).ceremonies && Done(Next(s, step), e)
    ensures Me(Next(s, step), e) in Next(s, step).last
  {
    OthersWait(s, step);
    WasWritten(s);
    StoreWrites(s, step);
    EndsStay(s, step, e);
    if e == step { OwnTurn(s, step); }
    hide Next, Enabled, OnTrack, AllOnTrack, Me, Other, Held, Done, Storing, WrittenBy;
  }

  lemma StoresStayOnTrack(s: State, step: End)
    requires AllOnTrack(s) && Enabled(s, step)
    ensures StoresOnTrack(Next(s, step))
  {
    hide Next, Enabled, AllOnTrack, Me, Done, WrittenBy;
    var s' := Next(s, step);
    forall a | a in s'.last ensures WrittenBy(s', a, s'.last[a]) {
      LastStays(s, step, a);
    }
    forall e: End | e.code in s'.ceremonies && Done(s', e) ensures Me(s', e) in s'.last {
      DoneHasWritten(s, step, e);
    }
  }

  lemma {:induction false} StepOnTrack(s: State, step: End)
    requires AllOnTrack(s) && Enabled(s, step)
    ensures AllOnTrack(Next(s, step)) && Next(s, step).ceremonies.Keys == s.ceremonies.Keys
    ensures forall code :: code in s.ceremonies ==>
      Work(Next(s, step), code) == Work(s, code) - if code == step.code then 1 else 0
  {
    OwnTurn(s, step);
    OthersWait(s, step);
    StoresStayOnTrack(s, step);
    var s' := Next(s, step);
    hide Next, Enabled, OnTrack, StoresOnTrack;
    forall x | x in s'.ceremonies ensures OnTrack(x, s'.ceremonies[x], Box(s'.boxes, x)) {
      if x != step.code { assert OnTrack(x, s.ceremonies[x], Box(s.boxes, x)); }
    }
  }

  // ---- progress ----

  function HostWork(h: Host): nat
  {
    match h
    case HOpen => 8 case HSendSpake => 7 case HRecvSpake => 6 case HAwaitSpake(_) => 5 case HSendOffer(_) => 4
    case HRecvAccept(_) => 3 case HAwaitAccept(_, _) => 2 case HStore(_, _) => 1 case _ => 0
  }

  function GuestWork(g: Guest): nat
  {
    match g
    case GOpen => 8 case GSendSpake => 7 case GRecvSpake => 6 case GAwaitSpake(_) => 5 case GRecvOffer(_) => 4
    case GAwaitOffer(_, _) => 3 case GSendAccept(_, _) => 2 case GStore(_, _) => 1 case _ => 0
  }

  ghost function Work(s: State, code: string): int
  {
    if code in s.ceremonies then HostWork(s.ceremonies[code].host) + GuestWork(s.ceremonies[code].guest) else 0
  }

  ghost function TotalWork(s: State, codes: seq<string>): int
  {
    Sum(codes, code => Work(s, code))
  }

  predicate Finished(c: Ceremony)
  {
    c.host.HDone? && c.guest.GDone?
  }

  /** No deadlock: in an unfinished ceremony one of the two scripts can move. */
  lemma UnfinishedCanMove(s: State, code: string)
    requires AllOnTrack(s) && code in s.ceremonies && !Finished(s.ceremonies[code])
    ensures Enabled(s, End(code, true)) || Enabled(s, End(code, false))
  {
    var c, d := s.ceremonies[code], Box(s.boxes, code);
    assert OnTrack(code, c, d);
  }

  lemma StepWorks(s: State, step: End, codes: seq<string>)
    requires AllOnTrack(s) && Enabled(s, step)
    requires NoDuplicates(codes) && Elements(codes) == s.ceremonies.Keys
    ensures TotalWork(Next(s, step), codes) == TotalWork(s, codes) - 1
  {
    hide OnTrack, Next;
    StepOnTrack(s, step);
    var s' := Next(s, step);
    assert step.code in Elements(codes);
    assert forall code :: code in codes ==> code in Elements(codes);
    SumChangesAt(codes, code => Work(s, code), code => Work(s', code), step.code);
  }

  ghost predicate CanRun(s: State, steps: seq<End>)
    decreases |steps|
  {
    steps == [] || (Enabled(s, steps[0]) && CanRun(Next(s, steps[0]), steps[1..]))
  }

  ghost function Run(s: State, steps: seq<End>): State
    requires CanRun(s, steps)
    decreases |steps|
  {
    if steps == [] then s else Run(Next(s, steps[0]), steps[1..])
  }

  lemma {:induction false} RunOnTrack(s: State, steps: seq<End>, codes: seq<string>)
    requires AllOnTrack(s) && CanRun(s, steps)
    requires NoDuplicates(codes) && Elements(codes) == s.ceremonies.Keys
    ensures AllOnTrack(Run(s, steps)) && Run(s, steps).ceremonies.Keys == s.ceremonies.Keys
    ensures TotalWork(Run(s, steps), codes) == TotalWork(s, codes) - |steps|
    decreases |steps|
  {
    hide OnTrack, Next, Enabled;
    if steps != [] {
      StepOnTrack(s, steps[0]);
      StepWorks(s, steps[0], codes);
      RunOnTrack(Next(s, steps[0]), steps[1..], codes);
    }
  }

  lemma InitialOnTrack(s: State)
    requires Initial(s)
    ensures AllOnTrack(s)
  {
  }

  /** A ceremony comes out right: both ends hold the same secret, and each has the other's card
      as it was given. */
  ghost predicate Agreed(s: State, code: string)
    requires code in s.ceremonies
  {
    var c := s.ceremonies[code];
    && c.host.HDone? && c.guest.GDone?
    && c.host.secret == c.guest.secret
    && c.host.peer == PeerOf(c.guestParty) && c.guest.peer == PeerOf(c.hostParty)
  }

  lemma {:induction false} EndAgrees(s: State, code: string)
    requires AllOnTrack(s) && code in s.ceremonies
    ensures !s.ceremonies[code].host.HFailed? && !s.ceremonies[code].guest.GFailed?
    ensures Agreed(s, code) || Enabled(s, End(code, true)) || Enabled(s, End(code, false))
  {
    hide Enabled, InOrder, StoresOnTrack, HostSent, GuestSent;
    assert OnTrack(code, s.ceremonies[code], Box(s.boxes, code));
    if !Finished(s.ceremonies[code]) {
      UnfinishedCanMove(s, code);
    }
  }

  /** Pairing never sticks: however the ceremonies are interleaved, nobody ever receives the
      wrong kind of message or a card that does not check, every run is at most 16 steps a
      ceremony long, and in a run that can go no further every pair agrees. */
  lemma {:induction false} PairingNeverSticks(s: State, steps: seq<End>, codes: seq<string>)
    requires Initial(s) && CanRun(s, steps)
    requires NoDuplicates(codes) && Elements(codes) == s.ceremonies.Keys
    ensures var e := Run(s, steps);
      && (forall code :: code in e.ceremonies ==> !e.ceremonies[code].host.HFailed? && !e.ceremonies[code].guest.GFailed?)
      && |steps| <= 16 * |codes|
      && ((forall step :: !Enabled(e, step)) ==> forall code :: code in e.ceremonies ==> Agreed(e, code))
  {
    hide Next, Enabled, OnTrack, StoresOnTrack, Agreed, Run, CanRun;
    InitialOnTrack(s);
    RunOnTrack(s, steps, codes);
    var e := Run(s, steps);
    SumBounded(codes, code => Work(s, code), 16);
    SumBounded(codes, code => Work(e, code), 16);
    forall code | code in e.ceremonies
      ensures !e.ceremonies[code].host.HFailed? && !e.ceremonies[code].guest.GFailed?
      ensures (forall step :: !Enabled(e, step)) ==> Agreed(e, code)
    {
      EndAgrees(e, code);
    }
  }

  lemma KeptIff(e: State, x: End)
    requires StoresOnTrack(e) && x.code in e.ceremonies && Done(e, x)
    ensures var me := Me(e, x);
      && me in e.last && e.last[me].code in e.ceremonies && Me(e, e.last[me]) == me && me in e.stores
      && (Other(e, x) in e.stores[me] <==> Other(e, x) == Other(e, e.last[me]) || Other(e, x) in Held(e, e.last[me]))
  {
    hide Me, Other, Held, Done;
    assert Me(e, x) in e.last;
    assert WrittenBy(e, Me(e, x), e.last[Me(e, x)]);
  }

  /** Whom a device trusts in the end. A script that is done has its peer in the store exactly if
      the script of that device that wrote last has the same peer, or read a store with it in. */
  lemma {:induction false} PeerIsKeptIff(s: State, steps: seq<End>, codes: seq<string>, x: End)
    requires Initial(s) && CanRun(s, steps) && NoDuplicates(codes) && Elements(codes) == s.ceremonies.Keys
    requires x.code in Run(s, steps).ceremonies && Done(Run(s, steps), x)
    ensures var e := Run(s, steps); var me := Me(e, x);
      && me in e.last && e.last[me].code in e.ceremonies && Me(e, e.last[me]) == me && me in e.stores
      && (Other(e, x) in e.stores[me] <==> Other(e, x) == Other(e, e.last[me]) || Other(e, x) in Held(e, e.last[me]))
  {
    hide Next, Enabled, OnTrack, StoresOnTrack, Run, CanRun, Me, Other, Held, Done;
    InitialOnTrack(s);
    RunOnTrack(s, steps, codes);
    KeptIff(Run(s, steps), x);
  }

  /** No device is in two ceremonies. */
  ghost predicate Apart(s: State)
  {
    forall x: End, y: End :: x.code in s.ceremonies && y.code in s.ceremonies && Me(s, x) == Me(s, y) ==> x == y
  }

  /** So when no device is in two ceremonies at once, a run that can go no further leaves each
      pair of devices trusting each other. */
  lemma {:induction false} PairsTrustEachOther(s: State, steps: seq<End>, codes: seq<string>, code: string)
    requires Initial(s) && CanRun(s, steps) && NoDuplicates(codes) && Elements(codes) == s.ceremonies.Keys
    requires forall step :: !Enabled(Run(s, steps), step)
    requires Apart(Run(s, steps)) && code in Run(s, steps).ceremonies
    ensures var e := Run(s, steps); var host, guest := Me(e, End(code, true)), Me(e, End(code, false));
      host in e.stores && guest in e.stores[host] && guest in e.stores && host in e.stores[guest]
  {
    PairingNeverSticks(s, steps, codes);
    var e := Run(s, steps);
    assert Agreed(e, code);
    PeerIsKeptIff(s, steps, codes, End(code, true));
    PeerIsKeptIff(s, steps, codes, End(code, false));
    hide Next, Enabled, Run, CanRun;
  }
}
