/**
 * The sample device set-up as a client of the host: a logger and a network
 * component are attached as host-aware components. Handles are then resolved
 * from the host, from the logger's handle and from the network component
 * itself, and finally the logger is detached again.
 */
module DeviceScenario {
  import opened Comet

  const Logger: TypeId := InterfaceTypeId("ILogger")
  const Network: TypeId := InterfaceTypeId("INetwork")

  /**
   * Every handle resolves to the component registered under its interface,
   * whichever object the query goes through, and detaching the logger hands
   * back the logger.
   */
  method SiblingLookup()
    returns (logger: Component, network: Component,
             log: ComPtr, net: ComPtr, fromNetwork: ComPtr, removed: Ptr)
    ensures log.IsValid() && log.Get() == ComponentAt(logger)
    ensures net.IsValid() && net.Get() == ComponentAt(network)
    ensures fromNetwork.IsValid() && fromNetwork.Get() == ComponentAt(logger)
    ensures removed == ComponentAt(logger)
  {
    var host := NewComHost();
    logger := new Component();
    network := new Component();
    var attachedLogger := host.Attach(Logger, logger);
    var attachedNetwork := host.Attach(Network, network);
    assert attachedLogger == ComponentAt(logger) && attachedNetwork == ComponentAt(network);

    log := MakeComPtr(HostAt(host), Logger);
    net := ConvertComPtr(log, Network);
    fromNetwork := MakeComPtr(ComponentAt(network), Logger);

    removed := host.Detach(Logger);
  }
}
