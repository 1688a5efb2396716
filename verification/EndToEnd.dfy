// From a registration to a visitor's connection: the client's control program composed with its data
// streams.
module EndToEnd {
  import opened Basics
  import opened Types
  import opened Registry
  import opened Ledger
  import C = Control
  import H = Handshake
  import T = Tunnel

  // An acceptance puts the record in the table, with the address that was submitted.
  lemma AcceptedIsRegistered(cfg: Config, p: H.Params, s: H.System, a: H.Label, service: ServiceDefinition)
    requires H.AcceptsService(p, C.RegistrarOf(cfg), s, a, service)
    ensures var l := Registered(cfg, s.relay.ledger, p.service.value, s.server.me.nodeId).0;
            && service.serviceId in l.table && l.table[service.serviceId] == service
            && service.localAddress == p.service.value.localAddress && service.nodeId == s.server.me.nodeId
  {
    var l, req, n := s.relay.ledger, p.service.value, s.server.me.nodeId;
    PlacedRecord(cfg, l.table, Adopt(l.table, req, n));
  }

  // A server that relays a visitor of a service to a client has that client connected to the very address
  // the client submitted with a registration this server accepted under that service's id.
  lemma DialledIsRegistered(
    cfg: Config, hp: H.Params, hws: seq<H.System>, hacts: seq<H.Label>, i: nat,
    tp: T.Params, tws: seq<T.System>, tacts: seq<T.Label>, k: nat)
      returns (j: nat, service: ServiceDefinition)
    requires H.IsRun(hp, C.RegistrarOf(cfg), hws, hacts) && i < |hws|
    requires T.IsRun(tp, tws, tacts) && k < |tws|
    requires tp.local == hws[i].published && tws[k].server.ServerRelaying?
    ensures j < i && H.AcceptsService(hp, C.RegistrarOf(cfg), hws[j], hacts[j], service)
    ensures service.serviceId == tp.serviceId && tws[k].dialled == Some(service.localAddress)
    ensures var l := Registered(cfg, hws[j].relay.ledger, hp.service.value, hws[j].server.me.nodeId).0;
            service.serviceId in l.table && l.table[service.serviceId] == service
  {
    H.RegistrarKeepsAddresses(cfg);
    H.PublishedAddress(hp, C.RegistrarOf(cfg), hws, hacts, i);
    T.OpenedMeansDialled(tp, tws, tacts, k);
    var id := tp.serviceId;
    assert H.WasAccepted(hp, C.RegistrarOf(cfg), hws, hacts, i, id);
    j, service :| j < i && service.serviceId == id && H.AcceptsService(hp, C.RegistrarOf(cfg), hws[j], hacts[j], service);
    AcceptedIsRegistered(cfg, hp, hws[j], hacts[j], service);
  }
}
