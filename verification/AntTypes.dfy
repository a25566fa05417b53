/** The data of AntNet: routing-table rows, ant memory, ants and what a handler does with them. */
module AntTypes {

  /** Capacity of `pkt_memory_`, the array an ant carries. */
  const MAX_NUM_NODES: nat := 16

  /** One entry of a routing-table row. */
  datatype Pheromone = Pheromone(neighbor: int, phvalue: real)

  type Row = seq<Pheromone>

  /** A routing table: destination to row. */
  type Table = map<int, Row>

  /** One entry of an ant's memory. */
  datatype Memory = Memory(nodeAddr: int, tripTime: real)

  datatype Direction = Down | None | Up

  /** The header fields of a packet that the agent reads or writes. */
  datatype Ant = Ant(
    isAnt: bool,             // packet type is PT_ANT
    numForwards: int,
    direction: Direction,
    src: int,
    dst: int,
    startTime: real,
    saddr: int,              // IP source: the node that sent the last hop
    nextHop: int,            // next hop, also the IP destination
    memory: seq<Memory>)

  /** What `calc_next` yields for a finite supply of random draws. */
  datatype Hop =
    | NextHop(node: int)
    | StillDrawing           // every draw supplied was rejected
    | RanOffEnd              // control leaves the function without a return statement

  /** What a handler did with its packet. */
  datatype Outcome =
    | Sent(ant: Ant)
    | Freed
    | Dropped
    | Untouched              // the handler returned and nobody owns the packet
    | Drawing                // the handler is still inside the rejection loop
    | Fault                  // an access outside the arrays, or a missing return value

  /** Position of the first entry naming `n`, or |row|. */
  function IndexOf(row: Row, n: int): (k: nat)
    ensures k <= |row|
    ensures k < |row| ==> row[k].neighbor == n
    ensures forall i :: 0 <= i < k ==> row[i].neighbor != n
  {
    if row == [] then 0
    else if row[0].neighbor == n then 0
    else 1 + IndexOf(row[1..], n)
  }

  /** Position of the first memory entry holding `addr`, or |mem|. */
  function Find(mem: seq<Memory>, addr: int): (k: nat)
    ensures k <= |mem|
    ensures k < |mem| ==> mem[k].nodeAddr == addr
    ensures forall i :: 0 <= i < k ==> mem[i].nodeAddr != addr
  {
    if mem == [] then 0
    else if mem[0].nodeAddr == addr then 0
    else 1 + Find(mem[1..], addr)
  }

  predicate DistinctNodes(mem: seq<Memory>) {
    forall i, j :: 0 <= i < j < |mem| ==> mem[i].nodeAddr != mem[j].nodeAddr
  }

  lemma {:induction false} FindUnique(mem: seq<Memory>, k: nat)
    requires k < |mem| && DistinctNodes(mem)
    ensures Find(mem, mem[k].nodeAddr) == k
  {
  }

  lemma {:induction false} IndexOfIs(row: Row, n: int, k: nat)
    requires k < |row| && row[k].neighbor == n
    requires forall i :: 0 <= i < k ==> row[i].neighbor != n
    ensures IndexOf(row, n) == k
  {
  }
}
