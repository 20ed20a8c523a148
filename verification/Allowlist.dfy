/** The template fields that hold wording: the contract between the seeder and the checker. */
module Allowlist {
  const STRING_FIELDS: set<string> := {"alias", "title", "description", "tip", "label", "group", "name"}

  const STRING_VALUE_OBJECTS: set<string> := {"aliases", "slots", "valueMap"}

  const STRING_ARRAYS: set<string> := {"expressionLabels", "tableHeaders"}
}
