/**
 * The rows the core reads: controls, their checklist items, evidence
 * artifacts and the text chunks extracted from them. Timestamps are whole
 * seconds on one clock; `collectedAt` is optional because the scorer copes
 * with an artifact that has none.
 */
module Entities {
  import opened Wrappers

  datatype Control = Control(id: int, code: string, title: string, description: string, category: string)

  datatype ChecklistItem = ChecklistItem(id: int, controlId: int, text: string)

  /** `source` is "github" for system-collected evidence, "upload" for manual uploads. */
  datatype Artifact = Artifact(id: int, source: string, name: string, collectedAt: Option<int>)

  /** One fragment of an artifact's text; `chunkIndex` orders the fragments of one artifact. */
  datatype Chunk = Chunk(id: int, artifactId: int, chunkIndex: int, text: string)

  /** `db.query(Control).filter(Control.id == id).first()`. */
  function FindControl(controls: seq<Control>, id: int): (r: Option<Control>)
    ensures r.Some? ==> r.value in controls && r.value.id == id
    ensures r.None? ==> forall c :: c in controls ==> c.id != id
  {
    if controls == [] then None
    else if controls[0].id == id then Some(controls[0])
    else FindControl(controls[1..], id)
  }

  /** `db.query(Artifact).filter(Artifact.id == id).first()`. */
  function FindArtifact(artifacts: seq<Artifact>, id: int): (r: Option<Artifact>)
    ensures r.Some? ==> r.value in artifacts && r.value.id == id
    ensures r.None? ==> forall a :: a in artifacts ==> a.id != id
  {
    if artifacts == [] then None
    else if artifacts[0].id == id then Some(artifacts[0])
    else FindArtifact(artifacts[1..], id)
  }

  /** The checklist items of one control, in table order. */
  function ItemsOf(checklist: seq<ChecklistItem>, controlId: int): (r: seq<ChecklistItem>)
    ensures |r| <= |checklist|
    ensures forall it :: it in r <==> it in checklist && it.controlId == controlId
  {
    if checklist == [] then []
    else
      (if checklist[0].controlId == controlId then [checklist[0]] else []) + ItemsOf(checklist[1..], controlId)
  }
}
