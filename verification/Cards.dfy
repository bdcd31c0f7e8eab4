/** Shared cards as they are kept in card lists (oscam/module-cccam-data.h:62-121). */
module Cards {
  import opened Bytes

  type Serial = b: bytes | |b| == 8 witness seq(8, _ => 0)

  type SharedAddress = b: bytes | |b| == 4 witness [0, 0, 0, 0]

  datatype Provider = Provider(prov: Word, sa: SharedAddress)

  datatype Sid = Sid(sid: Short, chid: Short, ecmlen: byte)

  /** A rejected service; one that is only blocked for a while has a time. */
  datatype BadSid = BadSid(sid: Short, chid: Short, ecmlen: byte, blockedTill: int)

  // card_type
  const CT_LOCALCARD := 1
  const CT_CARD_BY_SERVICE_USER := 3
  const CT_REMOTECARD := 10

  /** struct cc_card. Groups are bit sets; `reader` and `sidtab` are pointers in C. */
  datatype Card = Card(
    id: Word, remoteId: Word, caid: Short, hop: byte, reshare: byte, serial: Serial,
    providers: seq<Provider>, goodSids: seq<Sid>, badSids: seq<BadSid>, nodes: seq<NodeId>,
    kind: int, sidtab: Option<nat>, grp: set<nat>, rdrReshare: byte, isExt: bool,
    timeout: int, reader: Option<nat>)

  /** The provider numbers in a list. */
  function Numbers(ps: seq<Provider>): set<Word> {
    set p | p in ps :: p.prov
  }

  ghost predicate DistinctProviders(ps: seq<Provider>) {
    forall i, j :: 0 <= i < j < |ps| ==> ps[i].prov != ps[j].prov
  }

  // Comparing cards (oscam/module-cccam.c:1510-1542)

  /** same_card2 without the group */
  predicate SameCard2(a: Card, b: Card) {
    a.caid == b.caid && a.kind == b.kind && a.sidtab == b.sidtab && a.serial == b.serial
  }

  predicate SameFirstNode(a: Card, b: Card) {
    if a.nodes == [] || b.nodes == [] then a.nodes == [] && b.nodes == [] else a.nodes[0] == b.nodes[0]
  }

  /** same_card */
  predicate SameCard(a: Card, b: Card) {
    a.remoteId == b.remoteId && SameCard2(a, b) && a.grp == b.grp && SameFirstNode(a, b)
  }
}
