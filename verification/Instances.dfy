/** registry/pool.go: the records kept by service discovery. */
module Instances {

  datatype Option<+T> = None | Some(value: T)

  type UUID = nat

  const NIL_UUID: UUID := 0

  datatype Server = Server(id: UUID, instanceId: UUID, kind: string, name: string, advertiseAddress: string, port: int)

  datatype Topic = Topic(name: string, kind: string, group: string)

  datatype Instance = Instance(
    id: UUID,
    serviceName: string,
    kind: string,
    advertiseAddress: string,
    managerPort: int,
    managerAddress: string,
    tags: seq<string>,
    metadata: map<string, string>,
    weight: int,
    status: int,
    checkEntryPoint: string,
    ttl: int,
    servers: map<string, Server>,
    topics: map<string, Topic>
  )
}
