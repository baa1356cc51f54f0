/** The developer record shown on the Hyperlocal Swarm screen and the fixed sample
    set the screen is built from. */
module Developers {

  datatype Status = Online | Busy | Away

  /** One nearby developer. `distance` is in kilometres and is only displayed. */
  datatype Developer = Developer(
    id: string,
    name: string,
    handle: string,
    distance: real,
    skills: seq<string>,
    status: Status,
    badges: seq<string>,
    openForCollab: bool)

  /** The three sample developers, in declared order. */
  const MockDevelopers: seq<Developer> := [
    Developer("1", "Alex Chen", "alexchen", 0.8,
      ["React", "TypeScript", "Node.js"], Online,
      ["🏆", "⭐", "🚀", "💎"], true),
    Developer("2", "Sarah Park", "sarahp", 1.2,
      ["Python", "AI/ML", "TensorFlow"], Online,
      ["🔥", "☕", "⚡", "☀️"], false),
    Developer("3", "Marcus Johnson", "marcusj", 2.1,
      ["Next.js", "Security", "React"], Busy,
      ["💻", "🎯", "🌟"], true)
  ]

  /** Identifiers are unique across the sample set. */
  lemma MockIdsUnique()
    ensures forall i, j :: 0 <= i < j < |MockDevelopers| ==> MockDevelopers[i].id != MockDevelopers[j].id
  {
  }
}
