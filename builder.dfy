/** The subtask-count decision of `RenderingTaskBuilder`. */
module Builder {

  /** The renderer's defaults for the number of subtasks. */
  datatype RendererDefaults = RendererDefaults(defaultSubtasks: int, minSubtasks: int, maxSubtasks: int)

  /** The part of a task definition that the count depends on. */
  datatype TaskDefinition = TaskDefinition(optimizeTotal: bool, totalSubtasks: int)

  /**
    The number of subtasks a task is split into: the requested count when
    the user did not ask for an optimised count and the request lies within
    the renderer's bounds, the renderer's default otherwise.
  */
  function CalculateTotal(defaults: RendererDefaults, definition: TaskDefinition): (n: int)
    ensures !definition.optimizeTotal &&
            defaults.minSubtasks <= definition.totalSubtasks <= defaults.maxSubtasks
            ==> n == definition.totalSubtasks
    ensures definition.optimizeTotal ||
            !(defaults.minSubtasks <= definition.totalSubtasks <= defaults.maxSubtasks)
            ==> n == defaults.defaultSubtasks
  {
    if definition.optimizeTotal then defaults.defaultSubtasks
    else if defaults.minSubtasks <= definition.totalSubtasks <= defaults.maxSubtasks then
      definition.totalSubtasks
    else defaults.defaultSubtasks
  }

  /**
    When the renderer's default lies within its own bounds, the count is
    always within them.
  */
  lemma CalculateTotalWithinBounds(defaults: RendererDefaults, definition: TaskDefinition)
    requires defaults.minSubtasks <= defaults.defaultSubtasks <= defaults.maxSubtasks
    ensures defaults.minSubtasks <= CalculateTotal(defaults, definition) <= defaults.maxSubtasks
  {
  }
}
